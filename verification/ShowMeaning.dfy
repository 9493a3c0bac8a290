/** What the merged list of ListResortViewShopRestTour is, item by item. */
module ShowMeaning {
  import opened ShowList

  /** The items before the k-th that came from list l. */
  ghost function Before(tags: seq<nat>, k: nat, l: nat): set<nat>
    requires k <= |tags|
  {
    set j: nat | j < k && tags[j] == l
  }

  lemma {:induction false} CountMeans(tags: seq<nat>, k: nat, l: nat)
    requires k <= |tags|
    ensures Count(tags[..k], l) == |Before(tags, k, l)|
  {
    if k > 0 {
      var b := k - 1;
      CountMeans(tags, b, l);
      assert tags[..k][..b] == tags[..b];
      assert Before(tags, k, l) == Before(tags, b, l) + if tags[b] == l then {b} else {};
    } else {
      assert Before(tags, k, l) == {};
    }
  }

  /** The k-th item comes from the list its tag names, and is the first there that was not taken yet. */
  ghost predicate NextOf<T>(lists: seq<seq<T>>, out: seq<T>, tags: seq<nat>, k: nat)
    requires k < |out| == |tags|
  {
    tags[k] < |lists| && |Before(tags, k, tags[k])| < |lists[tags[k]]| &&
    out[k] == lists[tags[k]][|Before(tags, k, tags[k])|]
  }

  lemma {:induction false} PrefixMeans<T>(lists: seq<seq<T>>, out: seq<T>, tags: seq<nat>, n: nat)
    requires n <= |out| == |tags|
    ensures Interleaves(lists, out[..n], tags[..n]) <==> forall k :: 0 <= k < n ==> NextOf(lists, out, tags, k)
  {
    if n > 0 {
      var b := n - 1;
      PrefixMeans(lists, out, tags, b);
      CountMeans(tags, b, tags[b]);
      assert tags[..n][..b] == tags[..b] && out[..n] == out[..b] + [out[b]];
      assert NextOf(lists, out, tags, b) && Fits(lists, tags[..b]) ==>
        Woven(lists, tags[..n]) == Woven(lists, tags[..b]) + [out[b]];
    }
  }

  /** An interleaving takes item after item from the fronts of the lists. */
  lemma InterleavesMeans<T>(lists: seq<seq<T>>, out: seq<T>, tags: seq<nat>)
    ensures Interleaves(lists, out, tags) <==>
            |out| == |tags| && forall k :: 0 <= k < |out| ==> NextOf(lists, out, tags, k)
  {
    if |out| == |tags| {
      PrefixMeans(lists, out, tags, |out|);
      assert out[..|out|] == out && tags[..|out|] == tags;
    }
  }
}
