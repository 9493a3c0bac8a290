/** Requests that the client does not print: what the server makes of a target without a query, of one
    that begins with its query, of a line without a blank or a version mark, and of any set of keys. */
module RequestForms {
  import opened Prelude
  import UrlCode
  import opened QueryText
  import opened HttpQuery

  /** A request line: its first blank is at m, the first version mark after that at e, and the first end
      of a line after the mark at v. */
  ghost predicate Laid(msg: string, m: nat, e: nat, v: nat) {
    m < e && e + |MARK| <= v && m < |msg| && FirstChar(msg, ' ', 0, m) &&
    FirstText(msg, MARK, m + 1, e) && FirstText(msg, END_LINE, e + |MARK|, v)
  }

  ghost predicate FirstChar(msg: string, c: char, from: nat, i: nat) {
    from <= i < |msg| && msg[i] == c && Lacks(msg, c, from, i)
  }

  ghost predicate Lacks(msg: string, c: char, from: nat, to: nat) {
    forall j :: from <= j < to && j < |msg| ==> msg[j] != c
  }

  ghost predicate FirstText(msg: string, sub: string, from: nat, i: nat) {
    from <= i && At(msg, sub, i) && forall j :: from <= j < i ==> !At(msg, sub, j)
  }

  lemma FoundChar(msg: string, c: char, from: nat, i: nat)
    requires FirstChar(msg, c, from, i)
    ensures Find(msg, c, from) == Some(i)
  {
    FindIs(msg, c, from, i);
  }

  lemma FoundText(msg: string, sub: string, from: nat, i: nat)
    requires FirstText(msg, sub, from, i)
    ensures FindText(msg, sub, from) == Some(i)
  {
  }

  lemma NotBefore(msg: string, c: char, from: nat, e: nat)
    requires Lacks(msg, c, from, e)
    ensures Find(msg, c, from).Some? ==> e <= Find(msg, c, from).value
  {
  }

  lemma MarkStart(msg: string, e: nat)
    requires At(msg, MARK, e)
    ensures e + |MARK| <= |msg| && |MARK| == 6 && msg[e] == ' '
  {
    assert msg[e + 0] == MARK[0];
  }

  lemma VersionCut(msg: string, from: nat, v: nat)
    requires FirstText(msg, END_LINE, from, v)
    ensures v <= |msg| && ReadVersion(msg, from) == msg[from..v]
  {
    FoundText(msg, END_LINE, from, v);
  }

  lemma TargetCut(msg: string, m: nat, e: nat)
    requires FirstChar(msg, ' ', 0, m) && FirstText(msg, MARK, m + 1, e)
    ensures ReadLine(msg) == ReadTarget(msg, msg[..m], m + 1, e)
  {
    FoundChar(msg, ' ', 0, m);
    FoundText(msg, MARK, m + 1, e);
  }

  /** The line is cut at those places, and the target is read between m and e. */
  lemma LineCut(msg: string, m: nat, e: nat, v: nat)
    requires Laid(msg, m, e, v)
    ensures At(msg, MARK, e) && v <= |msg| && ReadLine(msg) == ReadTarget(msg, msg[..m], m + 1, e)
    ensures e + |MARK| <= |msg| && ReadVersion(msg, e + |MARK|) == msg[e + |MARK|..v]
  {
    TargetCut(msg, m, e);
    VersionCut(msg, e + |MARK|, v);
  }

  /** Without a '?', the whole target is the uri, with its first character. */
  lemma NoQuery(msg: string, m: nat, e: nat, v: nat)
    requires Laid(msg, m, e, v) && Lacks(msg, '?', m + 1, e)
    ensures ReadLine(msg) == Whole(msg[..m], msg[m + 1..e], None, msg[e + |MARK|..v])
  {
    LineCut(msg, m, e, v);
    NotBefore(msg, '?', m + 1, e);
    MarkStart(msg, e);
  }

  /** With its first '?' at q, behind the first character, the uri is what lies between those two, and
      the query what follows the '?'. */
  lemma WithQuery(msg: string, m: nat, q: nat, e: nat, v: nat)
    requires Laid(msg, m, e, v) && m + 1 < q < e && FirstChar(msg, '?', m + 1, q)
    ensures ReadLine(msg) == Whole(msg[..m], msg[m + 2..q], Some(msg[q + 1..e]), msg[e + |MARK|..v])
  {
    LineCut(msg, m, e, v);
    FoundChar(msg, '?', m + 1, q);
  }

  /** With the '?' first, the uri is everything behind it, to the end of the request. */
  lemma QueryFirst(msg: string, m: nat, e: nat, v: nat)
    requires Laid(msg, m, e, v) && m + 1 < e && msg[m + 1] == '?'
    ensures ReadLine(msg) == Whole(msg[..m], msg[m + 2..], Some(msg[m + 2..e]), msg[e + |MARK|..v])
  {
    LineCut(msg, m, e, v);
    MarkStart(msg, e);
    FoundChar(msg, '?', m + 1, m + 1);
  }

  /** A request without a blank leaves the new object as it is, which counts as read; one without a
      version mark behind its first blank leaves all but the method. */
  lemma BrokenLine(msg: string)
    ensures Lacks(msg, ' ', 0, |msg|) ==> Accepted(msg, FRESH_HEAD, FRESH_INFO) == (2, FRESH_HEAD, FRESH_INFO)
    ensures forall m: nat :: FirstChar(msg, ' ', 0, m) && MarkFree(msg, m + 1) ==>
              Accepted(msg, FRESH_HEAD, FRESH_INFO) ==
                (if msg[..m] == "GET" then 2 else 1, FRESH_HEAD.(verb := msg[..m]), FRESH_INFO)
  {
    NothingRead(FRESH_INFO);
    forall m: nat | FirstChar(msg, ' ', 0, m) && MarkFree(msg, m + 1)
      ensures ReadLine(msg) == NoVersion(msg[..m])
    {
      FoundChar(msg, ' ', 0, m);
    }
  }

  ghost predicate MarkFree(msg: string, from: nat) { forall j :: from <= j ==> !At(msg, MARK, j) }

  lemma NothingRead(i: Info)
    ensures Others(map[]) == map[] && WithKeys(i, map[]) == i
  {
  }

  /** A GET request without a query is read with its method, uri and version, and no key is set. */
  lemma PlainRequest(msg: string, e: nat, v: nat)
    requires Laid(msg, 3, e, v) && msg[..3] == "GET" && Lacks(msg, '?', 4, e)
    ensures Accepted(msg, FRESH_HEAD, FRESH_INFO) ==
              (2, Head("GET", msg[e + |MARK|..v], msg[4..e], "", map[]), FRESH_INFO)
  {
    NoQuery(msg, 3, e, v);
    NothingRead(FRESH_INFO);
  }

  // The query as a text

  /** Text without a '=' is ignored. */
  lemma NoKey(text: string, pos: nat, data: Data)
    requires pos <= |text| && Lacks(text, '=', pos, |text|)
    ensures Params(text, pos, data) == data
  {
    NotBefore(text, '=', pos, |text|);
  }

  /** A key runs to the first '='; with no '&' behind that, its value is the rest of the text. */
  lemma LastPair(text: string, pos: nat, t: nat, data: Data)
    requires FirstChar(text, '=', pos, t) && Lacks(text, '&', t + 1, |text|)
    ensures Params(text, pos, data) == data[text[pos..t] := UrlCode.Decode(text[t + 1..])]
  {
    FoundChar(text, '=', pos, t);
    NotBefore(text, '&', t + 1, |text|);
  }

  /** Otherwise its value ends at the first '&' behind the '=', and the next key begins after it. */
  lemma NextPairRead(text: string, pos: nat, t: nat, u: nat, data: Data)
    requires FirstChar(text, '=', pos, t) && FirstChar(text, '&', t + 1, u)
    ensures Params(text, pos, data) == Params(text, u + 1, data[text[pos..t] := UrlCode.Decode(text[t + 1..u])])
  {
    FoundChar(text, '=', pos, t);
    FoundChar(text, '&', t + 1, u);
  }

  /** A field takes the value of the pair with that name, and keeps its own if there is none. */
  ghost predicate Reads(ps: Pairs, name: string, was: string, now: string) {
    (forall i :: 0 <= i < |ps| && ps[i].0 == name ==> now == ps[i].1) &&
    ((forall i :: 0 <= i < |ps| ==> ps[i].0 != name) ==> now == was)
  }

  ghost predicate AllRead(ps: Pairs, was: Info, now: Info) {
    Reads(ps, "type", was.typ, now.typ) && Reads(ps, "lang", was.lang, now.lang) &&
    Reads(ps, "qid", was.qid, now.qid) && Reads(ps, "ptid", was.ptid, now.ptid) &&
    Reads(ps, "auth", was.auth, now.auth) && Reads(ps, "ccy", was.ccy, now.ccy) &&
    Reads(ps, "csuid", was.csuid, now.csuid) && Reads(ps, "uid", was.uid, now.uid) &&
    Reads(ps, "query", was.query, now.query) &&
    Reads(ps, "cur_id", was.referId, now.referId) && Reads(ps, "next_id", was.curId, now.curId)
  }

  /** The map that pairs with different names make. */
  ghost predicate MapOf(ps: Pairs, d: Data) {
    (forall i :: 0 <= i < |ps| ==> ps[i].0 in d && d[ps[i].0] == ps[i].1) &&
    forall s :: s in d ==> exists i :: 0 <= i < |ps| && ps[i].0 == s
  }

  lemma ReadsKey(ps: Pairs, d: Data, key: Key, was: string)
    requires MapOf(ps, d)
    ensures Reads(ps, KeyText(key), was, Get(d, key, was))
  {
  }

  lemma AllKeysRead(ps: Pairs, d: Data, was: Info)
    requires forall key: Key, w :: Reads(ps, KeyText(key), w, Get(d, key, w))
    ensures AllRead(ps, was, WithKeys(was, d))
  {
  }

  lemma PairsMapped(ps: Pairs)
    requires Printable(ps) && forall i, j :: 0 <= i < j < |ps| ==> ps[i].0 != ps[j].0
    ensures MapOf(ps, Params(Printed(ps), 0, map[]))
  {
    var text := Printed(ps);
    assert text[0..] == text;
    ParamsPrinted(text, 0, ps, map[]);
    UpdatedAt(map[], ps);
  }

  /** Of any printed pairs with different names, each key's field takes the value sent with it, the other
      fields stay, and exactly the pairs with other names are left. */
  lemma PairsRead(ps: Pairs, was: Info)
    requires Printable(ps) && forall i, j :: 0 <= i < j < |ps| ==> ps[i].0 != ps[j].0
    ensures var d := Params(Printed(ps), 0, map[]);
            AllRead(ps, was, WithKeys(was, d)) && OthersLeft(ps, Others(d))
  {
    PairsMapped(ps);
    var d := Params(Printed(ps), 0, map[]);
    forall key: Key, w
      ensures Reads(ps, KeyText(key), w, Get(d, key, w))
    {
      ReadsKey(ps, d, key, w);
    }
    AllKeysRead(ps, d, was);
  }

  ghost predicate OthersLeft(ps: Pairs, left: Data) {
    forall s :: s in left <==> (exists i :: 0 <= i < |ps| && ps[i].0 == s) && forall key: Key :: KeyText(key) != s
  }

  // The client's side

  /** The request for a url: its first slash is not doubled, and nothing from a NUL on is sent. */
  lemma MessageMeans(url: string, rest: string)
    requires Lacks(url, 0 as char, 0, |url|)
    ensures Message("/" + url) == "GET /" + url + TAIL
    ensures url == "" || url[0] != '/' ==> Message(url) == "GET /" + url + TAIL
    ensures Message(url + [0 as char] + rest) == Message(url)
  {
    NotBefore(url, 0 as char, 0, |url|);
    var whole := "/" + url;
    assert forall i :: 0 < i < |whole| ==> whole[i] == url[i - 1];
    assert Lacks(whole, 0 as char, 0, |whole|);
    NotBefore(whole, 0 as char, 0, |whole|);
    assert whole[1..] == url;
    var more := url + [0 as char] + rest;
    assert more[|url|] == 0 as char;
    FoundChar(more, 0 as char, 0, |url|);
    assert more[..|url|] == url;
  }
}
