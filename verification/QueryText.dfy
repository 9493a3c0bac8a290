/** Query strings: key=value pairs joined by '&', printed with encoded values and parsed by
    searching for the next '=' and the next '&' (HttpDefine.cpp, parseParams). */
module QueryText {
  import opened Prelude
  import opened UrlCode

  type Data = map<string, string>

  /** std::string::find for one character. */
  function Find(s: string, c: char, from: nat): (r: Option<nat>)
    ensures r.Some? ==> from <= r.value < |s| && s[r.value] == c && forall j :: from <= j < r.value ==> s[j] != c
    ensures r.None? ==> forall j :: from <= j < |s| ==> s[j] != c
    decreases |s| - from
  {
    if from >= |s| then None else if s[from] == c then Some(from) else Find(s, c, from + 1)
  }

  /** One pair of a text: its key, its encoded value, and where the text goes on after the '&'. */
  datatype Cut = Cut(key: string, code: string, next: Option<nat>)

  function CutPair(text: string, pos: nat): (r: Option<Cut>)
    requires pos <= |text|
    ensures r.Some? && r.value.next.Some? ==> pos < r.value.next.value <= |text|
  {
    match Find(text, '=', pos)
    case None => None
    case Some(t) =>
      match Find(text, '&', t + 1)
      case None => Some(Cut(text[pos..t], text[t + 1..], None))
      case Some(u) => Some(Cut(text[pos..t], text[t + 1..u], Some(u + 1)))
  }

  /** The parser's reading of a text from a position, adding to what was read before: a key runs to
      the next '=', its value to the next '&' after that; text without '=' is ignored. */
  function Params(text: string, pos: nat, data: Data): Data
    requires pos <= |text|
    decreases |text| - pos
  {
    match CutPair(text, pos)
    case None => data
    case Some(cut) =>
      var read := data[cut.key := Decode(cut.code)];
      if cut.next.None? then read else Params(text, cut.next.value, read)
  }

  /** The searches of one turn of parseParams' loop. */
  method NextPair(text: string, pos: nat) returns (r: Option<Cut>)
    requires pos <= |text|
    ensures r == CutPair(text, pos)
  {
    var t := Find(text, '=', pos);
    if t.None? {
      return None;
    }
    var key := text[pos..t.value];
    var start := t.value + 1;
    t := Find(text, '&', start);
    if t.None? {
      r := Some(Cut(key, text[start..], None));
    } else {
      r := Some(Cut(key, text[start..t.value], Some(t.value + 1)));
    }
  }

  method ParseParams(text: string, before: Data) returns (data: Data)
    ensures data == Params(text, 0, before)
  {
    ghost var goal := Params(text, 0, before);
    data := before;
    var pos := 0;
    while pos < |text|
      invariant 0 <= pos <= |text|
      invariant Params(text, pos, data) == goal
    {
      var cut := NextPair(text, pos);
      if cut.None? {
        break;
      }
      var val := UrlDecode(cut.value.code);
      data := data[cut.value.key := val];
      if cut.value.next.None? {
        break;
      }
      pos := cut.value.next.value;
    }
  }

  // Printing

  type Pairs = seq<(string, string)>

  ghost predicate Name(key: string) { forall i :: 0 <= i < |key| ==> Plain(key[i]) }

  ghost predicate Printable(ps: Pairs) {
    forall i :: 0 <= i < |ps| ==> Name(ps[i].0) && Bytes(ps[i].1)
  }

  function Pair(p: (string, string)): string
    requires Bytes(p.1)
  {
    p.0 + "=" + Encode(p.1)
  }

  function Printed(ps: Pairs): string
    requires Printable(ps)
  {
    if ps == [] then ""
    else if |ps| == 1 then Pair(ps[0])
    else Pair(ps[0]) + "&" + Printed(ps[1..])
  }

  /** Printing in order, one pair after the other. */
  lemma {:induction false} PrintedNext(ps: Pairs, p: (string, string))
    requires Printable(ps) && Printable([p]) && Printable(ps + [p]) && ps != []
    ensures Bytes(p.1) && Printed(ps + [p]) == Printed(ps) + "&" + Pair(p)
  {
    assert [p][0] == p;
    if |ps| == 1 {
      assert (ps + [p])[1..] == [p];
    } else {
      assert (ps + [p])[1..] == ps[1..] + [p];
      PrintedNext(ps[1..], p);
      Associate(Pair(ps[0]), Printed(ps[1..]), Pair(p));
    }
  }

  lemma Associate(a: string, b: string, c: string)
    ensures a + "&" + (b + "&" + c) == a + "&" + b + "&" + c
  {
  }

  ghost function Updated(data: Data, ps: Pairs): Data
    decreases |ps|
  {
    if ps == [] then data else Updated(data[ps[0].0 := ps[0].1], ps[1..])
  }

  /** A printed pair has its first '=' after the name and no '&'. */
  lemma PairShape(p: (string, string))
    requires Name(p.0) && Bytes(p.1)
    ensures var s := Pair(p);
            |p.0| < |s| && s[|p.0|] == '=' && s[..|p.0|] == p.0 && s[|p.0| + 1..] == Encode(p.1)
    ensures '=' !in p.0 && '&' !in Encode(p.1)
    ensures forall i :: 0 <= i < |Pair(p)| ==> Coded(Pair(p)[i]) || Pair(p)[i] == '='
  {
    EncodeCoded(p.1);
    var s, e := Pair(p), Encode(p.1);
    forall i | 0 <= i < |s|
      ensures Coded(s[i]) || s[i] == '='
    {
      if i > |p.0| {
        assert s[i] == e[i - |p.0| - 1];
      }
    }
  }

  lemma FindIs(s: string, c: char, from: nat, i: nat)
    requires from <= i < |s| && s[i] == c && forall j :: from <= j < i ==> s[j] != c
    ensures Find(s, c, from) == Some(i)
  {
  }

  /** Parsing a printed pair, at the end of the text or before an '&'. */
  lemma CutPrinted(text: string, pos: nat, p: (string, string), tail: string)
    requires Name(p.0) && Bytes(p.1) && pos <= |text| && text[pos..] == Pair(p) + tail
    requires tail == "" || tail[0] == '&'
    ensures tail == "" ==> CutPair(text, pos) == Some(Cut(p.0, Encode(p.1), None))
    ensures tail != "" ==>
              var next := pos + |Pair(p)| + 1;
              next <= |text| && text[next..] == tail[1..] &&
              CutPair(text, pos) == Some(Cut(p.0, Encode(p.1), Some(next)))
  {
    PairShape(p);
    CutFirst(text, pos, p.0, Encode(p.1), tail);
  }

  lemma CutFirst(text: string, pos: nat, key: string, code: string, tail: string)
    requires pos <= |text| && text[pos..] == key + "=" + code + tail && '=' !in key && '&' !in code
    requires tail == "" || tail[0] == '&'
    ensures tail == "" ==> CutPair(text, pos) == Some(Cut(key, code, None))
    ensures tail != "" ==>
              var next := pos + |key| + 1 + |code| + 1;
              next <= |text| && text[next..] == tail[1..] &&
              CutPair(text, pos) == Some(Cut(key, code, Some(next)))
  {
    Regroup(key, "=", code, tail);
    Spots(text, pos, key, code, tail);
    var t, u := pos + |key|, pos + |key| + 1 + |code|;
    TailAt(text, u);
    CutAt(text, pos, t, u, key, code);
  }

  lemma TailAt(text: string, u: nat)
    requires u <= |text|
    ensures text[u..] == "" <==> u == |text|
    ensures u < |text| ==> text[u..][0] == text[u] && text[u..][1..] == text[u + 1..]
  {
  }

  lemma Regroup(a: string, b: string, c: string, d: string)
    ensures a + b + c + d == a + (b + (c + d))
  {
  }

  lemma Spots(text: string, pos: nat, key: string, code: string, tail: string)
    requires pos <= |text| && text[pos..] == key + ("=" + (code + tail)) && '=' !in key && '&' !in code
    ensures var t, u := pos + |key|, pos + |key| + 1 + |code|;
            u <= |text| && text[t] == '=' && text[pos..t] == key && text[t + 1..u] == code && text[u..] == tail
    ensures forall j :: pos <= j < pos + |key| ==> text[j] != '='
    ensures forall j :: pos + |key| < j < pos + |key| + 1 + |code| ==> text[j] != '&'
  {
  }

  lemma CutAt(text: string, pos: nat, t: nat, u: nat, key: string, code: string)
    requires pos <= t < u <= |text| && text[t] == '=' && (u < |text| ==> text[u] == '&')
    requires text[pos..t] == key && text[t + 1..u] == code
    requires forall j :: pos <= j < t ==> text[j] != '='
    requires forall j :: t < j < u ==> text[j] != '&'
    ensures CutPair(text, pos) == Some(Cut(key, code, if u < |text| then Some(u + 1) else None))
  {
    FindIs(text, '=', pos, t);
    if u < |text| {
      FindIs(text, '&', t + 1, u);
    } else {
      assert text[t + 1..] == text[t + 1..u];
    }
  }

  /** Parsing a printed query gives back its pairs, whatever the bytes of their values. */
  lemma {:induction false} ParamsPrinted(text: string, pos: nat, ps: Pairs, data: Data)
    requires pos <= |text| && Printable(ps) && text[pos..] == Printed(ps)
    ensures Params(text, pos, data) == Updated(data, ps)
    decreases |ps|
  {
    if |ps| == 1 {
      assert Pair(ps[0]) + "" == Pair(ps[0]);
      CutPrinted(text, pos, ps[0], "");
      DecodeEncode(ps[0].1);
    } else if ps != [] {
      var rest := Printed(ps[1..]);
      assert Pair(ps[0]) + "&" + rest == Pair(ps[0]) + ("&" + rest);
      CutPrinted(text, pos, ps[0], "&" + rest);
      assert ("&" + rest)[1..] == rest;
      DecodeEncode(ps[0].1);
      ParamsPrinted(text, CutPair(text, pos).value.next.value, ps[1..], data[ps[0].0 := ps[0].1]);
    }
  }

  /** A printed query has no character that could end it inside a request line. */
  lemma {:induction false} PrintedCoded(ps: Pairs)
    requires Printable(ps)
    ensures forall i :: 0 <= i < |Printed(ps)| ==> Coded(Printed(ps)[i]) || Printed(ps)[i] in "=&"
  {
    if ps != [] {
      PairShape(ps[0]);
      PrintedCoded(ps[1..]);
    }
  }

  /** With different names, each name reads its own value afterwards, and nothing else changes. */
  lemma {:induction false} UpdatedAt(data: Data, ps: Pairs)
    requires forall i, j :: 0 <= i < j < |ps| ==> ps[i].0 != ps[j].0
    ensures forall i :: 0 <= i < |ps| ==> ps[i].0 in Updated(data, ps) && Updated(data, ps)[ps[i].0] == ps[i].1
    ensures forall k :: (forall i :: 0 <= i < |ps| ==> ps[i].0 != k) ==>
              (k in Updated(data, ps) <==> k in data) && (k in data ==> Updated(data, ps)[k] == data[k])
    decreases |ps|
  {
    if ps != [] {
      var next, rest := data[ps[0].0 := ps[0].1], ps[1..];
      UpdatedAt(next, rest);
      assert forall i :: 0 <= i < |rest| ==> rest[i].0 != ps[0].0;
      assert forall i :: 0 < i < |ps| ==> ps[i] == rest[i - 1];
    }
  }
}
