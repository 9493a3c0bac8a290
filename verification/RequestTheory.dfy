/** Client and server agree: what the server reads from a printed request is what the client sent. */
module RequestTheory {
  import opened Prelude
  import opened UrlCode
  import opened QueryText
  import opened HttpQuery

  /** The path reaches the server: it has no NUL, no '?', and nothing that looks like the version mark. */
  ghost predicate Transparent(path: string) {
    (forall i :: 0 <= i < |path| ==> path[i] != 0 as char && path[i] != '?') &&
    forall i :: 0 <= i < |path| ==> !At(path, MARK, i)
  }

  /** Characters of a printed query. */
  predicate Clean(c: char) { Coded(c) || c in "=&" }

  lemma CleanIsSafe(q: string)
    requires forall i :: 0 <= i < |q| ==> Clean(q[i])
    ensures forall i :: 0 <= i < |q| ==> q[i] != ' ' && q[i] != '?' && q[i] != 0 as char
  {
  }

  /** A request for path p with query q, by positions. */
  ghost predicate Shaped(msg: string, p: string, q: string) {
    var h, e := 5 + |p|, 6 + |p| + |q|;
    |msg| >= e + 11 && msg[..3] == "GET" && msg[3] == ' ' && msg[4] == '/' &&
    msg[5..h] == p && msg[h] == '?' && msg[h + 1..e] == q &&
    msg[e..e + 6] == MARK && msg[e + 6..e + 9] == VERSION && msg[e + 9..e + 11] == END_LINE
  }

  lemma Joined(s: string, a: string, b: string, c: string, d: string, e: string)
    requires s == a + (b + c + d) + e
    ensures s == a + (b + (c + (d + e)))
  {
  }

  lemma Parts(s: string, a: string, b: string, c: string, d: string, e: string)
    requires s == a + (b + c + d) + e
    ensures var i := |a|;
            var j := i + |b|;
            var k := j + |c|;
            var l := k + |d|;
            l <= |s| && s[..i] == a && s[i..j] == b && s[j..k] == c && s[k..l] == d && s[l..] == e
  {
  }

  lemma TailParts(msg: string, e: nat)
    requires e <= |msg| && msg[e..] == TAIL
    ensures |msg| >= e + 11 && msg[e..e + 6] == MARK && msg[e + 6..e + 9] == VERSION && msg[e + 9..e + 11] == END_LINE
  {
  }

  lemma Shape(p: string, q: string, msg: string)
    requires msg == "GET /" + (p + "?" + q) + TAIL
    ensures Shaped(msg, p, q)
  {
    Parts(msg, "GET /", p, "?", q, TAIL);
    TailParts(msg, 6 + |p| + |q|);
    FirstFive(msg);
    assert msg[5 + |p|..6 + |p|] == "?";
    assert msg[5 + |p|] == msg[5 + |p|..6 + |p|][0];
  }

  lemma FirstFive(msg: string)
    requires |msg| >= 5 && msg[..5] == "GET /"
    ensures msg[..3] == "GET" && msg[3] == ' ' && msg[4] == '/'
  {
  }

  lemma MarkChars(s: string, j: nat)
    ensures At(s, MARK, j) ==> j + 6 <= |s| && s[j] == ' ' && forall i :: j <= i < j + 6 ==> s[i] != '?'
  {
    assert |MARK| == 6 && MARK[0] == ' ' && forall k :: 0 <= k < 6 ==> MARK[k] != '?';
    if At(s, MARK, j) {
      assert s[j + 0] == ' ';
      forall i | j <= i < j + 6
        ensures s[i] != '?'
      {
        assert s[j + (i - j)] == MARK[i - j];
      }
    }
  }

  lemma AtWithin(s: string, sub: string, from: nat, to: nat, j: nat)
    requires from <= j && j + |sub| <= to <= |s|
    ensures At(s, sub, j) <==> At(s[from..to], sub, j - from)
  {
  }

  /** No version mark begins inside the target of a request, before the one that ends it. */
  lemma NoMarkAt(msg: string, p: string, q: string, j: nat)
    requires Shaped(msg, p, q) && Transparent(p) && forall i :: 0 <= i < |q| ==> q[i] != ' '
    requires 4 <= j < 6 + |p| + |q|
    ensures !At(msg, MARK, j)
  {
    var h, e := 5 + |p|, 6 + |p| + |q|;
    MarkChars(msg, j);
    if j < h {
      assert |MARK| == 6;
      if 5 <= j && j + 6 <= h {
        AtWithin(msg, MARK, 5, h, j);
      }
    } else if j > h {
      assert msg[j] == q[j - h - 1];
    }
  }

  lemma MarkPlace(msg: string, p: string, q: string)
    requires Shaped(msg, p, q) && Transparent(p) && forall i :: 0 <= i < |q| ==> q[i] != ' '
    ensures FindText(msg, MARK, 4) == Some(6 + |p| + |q|)
  {
    var e := 6 + |p| + |q|;
    forall j | 4 <= j < e
      ensures !At(msg, MARK, j)
    {
      NoMarkAt(msg, p, q, j);
    }
    assert At(msg, MARK, e) by {
      forall k | 0 <= k < 6
        ensures msg[e + k] == MARK[k]
      {
        assert msg[e + k] == msg[e..e + 6][k];
      }
    }
  }

  lemma VersionRead(msg: string, v: nat)
    requires v + 5 <= |msg| && msg[v..v + 3] == VERSION && msg[v + 3..v + 5] == END_LINE
    ensures ReadVersion(msg, v) == VERSION
  {
    var ver, eol := msg[v..v + 3], msg[v + 3..v + 5];
    assert |END_LINE| == 2 && ver[0] != '\r' && ver[1] != '\r' && ver[2] != '\r';
    assert At(msg, END_LINE, v + 3) by {
      assert msg[v + 3] == eol[0] && msg[v + 3 + 1] == eol[1];
    }
    assert msg[v] == ver[0] && msg[v + 1] == ver[1] && msg[v + 2] == ver[2];
    NotAt(msg, v);
    NotAt(msg, v + 1);
    NotAt(msg, v + 2);
  }

  lemma NotAt(msg: string, j: nat)
    requires j < |msg| && msg[j] != '\r'
    ensures !At(msg, END_LINE, j)
  {
    assert END_LINE[0] == '\r';
    assert msg[j + 0] == msg[j];
  }

  lemma TargetRead(msg: string, p: string, q: string)
    requires Shaped(msg, p, q) && Transparent(p) && At(msg, MARK, 6 + |p| + |q|)
    ensures ReadTarget(msg, "GET", 4, 6 + |p| + |q|) == Whole("GET", p, Some(q), VERSION)
  {
    var h, e := 5 + |p|, 6 + |p| + |q|;
    VersionRead(msg, e + |MARK|);
    assert Find(msg, '?', 4) == Some(h) by {
      assert forall i :: 5 <= i < h ==> msg[i] == msg[5..h][i - 5];
      FindIs(msg, '?', 4, h);
    }
  }

  /** The server cuts the request where the client joined it. */
  lemma LineRead(msg: string, p: string, q: string)
    requires Shaped(msg, p, q) && Transparent(p) && forall i :: 0 <= i < |q| ==> Clean(q[i])
    ensures ReadLine(msg) == Whole("GET", p, Some(q), VERSION)
  {
    CleanIsSafe(q);
    MarkPlace(msg, p, q);
    MethodPlace(msg);
    TargetRead(msg, p, q);
  }

  lemma MethodPlace(msg: string)
    requires |msg| > 3 && msg[..3] == "GET" && msg[3] == ' '
    ensures Find(msg, ' ', 0) == Some(3)
  {
  }

  // The keys

  /** The order in which the client sends the keys. */
  const SEND_ORDER: seq<Key> := [Type, Lang, Qid, Ptid, Auth, Ccy, Query, ReferId, CurId, NextId, Uid, Csuid]

  function Value(k: Keys, key: Key): string {
    match key
    case Type => k.typ
    case Lang => k.lang
    case Qid => k.qid
    case Ptid => k.ptid
    case Auth => k.auth
    case Ccy => k.ccy
    case Query => k.query
    case ReferId => k.referId
    case CurId => k.curId
    case NextId => k.nextId
    case Uid => k.uid
    case Csuid => k.csuid
  }

  function Place(key: Key): nat {
    match key
    case Type => 0 case Lang => 1 case Qid => 2 case Ptid => 3 case Auth => 4 case Ccy => 5
    case Query => 6 case ReferId => 7 case CurId => 8 case NextId => 9 case Uid => 10 case Csuid => 11
  }

  lemma SentAt(k: Keys, key: Key)
    ensures Place(key) < |Sent(k)| && Sent(k)[Place(key)] == (KeyText(key), Value(k, key))
  {
  }

  lemma SentIs(k: Keys, i: nat)
    requires i < |Sent(k)|
    ensures |SEND_ORDER| == |Sent(k)| && Place(SEND_ORDER[i]) == i
        && Sent(k)[i] == (KeyText(SEND_ORDER[i]), Value(k, SEND_ORDER[i]))
  {
  }

  /** Every key sent is read with its value, and nothing else is. */
  lemma KeysRead(k: Keys)
    ensures var d := Updated(map[], Sent(k));
            Others(d) == map[] && forall key: Key, default :: Get(d, key, default) == Value(k, key)
  {
    var ps := Sent(k);
    forall i, j | 0 <= i < j < |ps|
      ensures ps[i].0 != ps[j].0
    {
      SentIs(k, i);
      SentIs(k, j);
      NamesDiffer(SEND_ORDER[i], SEND_ORDER[j]);
    }
    UpdatedAt(map[], ps);
    var d := Updated(map[], ps);
    forall key: Key
      ensures KeyText(key) in d && d[KeyText(key)] == Value(k, key)
    {
      SentAt(k, key);
    }
    forall s | s in d
      ensures exists key: Key :: KeyText(key) == s
    {
      var i :| 0 <= i < |ps| && ps[i].0 == s;
      SentIs(k, i);
    }
  }

  /** What the server knows about a request after reading it: the keys as sent, with the sender's own id
      as the one referred to and the id the sender chose for it as its own. */
  ghost function Got(k: Keys): Info {
    Info(k.typ, k.lang, k.qid, k.ptid, k.auth, k.ccy, k.csuid, k.uid, k.query, k.curId, k.nextId)
  }

  ghost predicate Recovers(path: string, k: Keys)
    requires KeyBytes(k)
  {
    SentPrintable(k);
    var q := Printed(Sent(k));
    Accepted(Message(path + "?" + q), FRESH_HEAD, FRESH_INFO) ==
      (2, Head("GET", VERSION, Unslashed(path), q, map[]), Got(k))
  }

  lemma UrlKept(path: string, q: string)
    requires Transparent(path) && forall i :: 0 <= i < |q| ==> Clean(q[i])
    ensures CStr(path + "?" + q) == path + "?" + q
    ensures Unslashed(path + "?" + q) == Unslashed(path) + "?" + q
    ensures Transparent(Unslashed(path))
  {
    var url := path + "?" + q;
    CleanIsSafe(q);
    forall i | 0 <= i < |url|
      ensures url[i] != 0 as char
    {
      if i > |path| {
        assert url[i] == q[i - |path| - 1];
      }
    }
    assert Find(url, 0 as char, 0) == None;
    if path != [] && path[0] == '/' {
      assert url[1..] == path[1..] + "?" + q;
      forall i | 0 <= i < |path[1..]|
        ensures !At(path[1..], MARK, i)
      {
        if i + 1 + |MARK| <= |path| {
          AtWithin(path, MARK, 1, |path|, i + 1);
          assert path[1..] == path[1..|path|];
        }
      }
    }
  }

  lemma AllGot(d: Data, i: Info, k: Keys)
    requires forall key: Key, default :: Get(d, key, default) == Value(k, key)
    ensures WithKeys(i, d) == Got(k)
  {
  }

  lemma LineSent(path: string, q: string)
    requires Transparent(path) && forall i :: 0 <= i < |q| ==> Clean(q[i])
    ensures ReadLine(Message(path + "?" + q)) == Whole("GET", Unslashed(path), Some(q), VERSION)
  {
    var p := Unslashed(path);
    UrlKept(path, q);
    var msg := Message(path + "?" + q);
    Shape(p, q, msg);
    LineRead(msg, p, q);
  }

  lemma QueryRead(k: Keys)
    requires KeyBytes(k)
    ensures Printable(Sent(k))
    ensures var d := Params(Printed(Sent(k)), 0, map[]);
            Others(d) == map[] && WithKeys(FRESH_INFO, d) == Got(k)
  {
    SentPrintable(k);
    var q := Printed(Sent(k));
    assert q[0..] == q;
    ParamsPrinted(q, 0, Sent(k), map[]);
    KeysRead(k);
    AllGot(Updated(map[], Sent(k)), FRESH_INFO, k);
  }

  /** Whatever bytes the keys hold, a path the server can tell from the rest comes back whole, and so
      does every key. */
  lemma RequestRead(path: string, k: Keys)
    requires KeyBytes(k) && Transparent(path)
    ensures Recovers(path, k)
  {
    SentPrintable(k);
    var q := Printed(Sent(k));
    PrintedCoded(Sent(k));
    assert forall i :: 0 <= i < |q| ==> Clean(q[i]);
    LineSent(path, q);
    QueryRead(k);
  }

  /** The uri the server reads ends at the first '?' and before the first version mark, and holds only
      characters of the request. */
  lemma UriShape(msg: string, verb: string, e: nat)
    requires 4 <= e && FindText(msg, MARK, 4) == Some(e) && msg[4] != '?'
    ensures var line := ReadTarget(msg, verb, 4, e);
            (forall i :: 0 <= i < |line.uri| ==>
                line.uri[i] in msg[4..e] && (line.query.Some? ==> line.uri[i] != '?')) &&
            forall i :: 0 <= i < |line.uri| ==> !At(line.uri, MARK, i)
  {
    var line := ReadTarget(msg, verb, 4, e);
    assert msg[e] == MARK[0];
    var q := Find(msg, '?', 4);
    var from, to := if line.query.Some? then 5 else 4, if line.query.Some? then q.value else e;
    assert line.uri == msg[from..to];
    assert forall i :: from <= i < to ==> msg[i] == msg[4..e][i - 4];
    forall i | 0 <= i < |line.uri|
      ensures !At(line.uri, MARK, i)
    {
      if i + |MARK| <= |line.uri| {
        AtWithin(msg, MARK, from, to, from + i);
      }
    }
  }

  lemma MessageShape(url: string)
    ensures var msg := Message(url);
            Find(msg, ' ', 0) == Some(3) && |msg| > 4 && msg[4] == '/' &&
            FindText(msg, MARK, 4).Some? && 0 as char !in msg[4..FindText(msg, MARK, 4).value]
  {
    var msg, x := Message(url), Unslashed(CStr(url));
    var e := 5 + |x|;
    Parts(msg, "GET /", x, "", "", TAIL) by {
      assert x + "" + "" == x;
    }
    FirstFive(msg);
    MethodPlace(msg);
    TailParts(msg, e);
    assert At(msg, MARK, e) by {
      AtWithin(msg, MARK, e, e + 6, e);
    }
    NoNul(msg, x, e);
  }

  /** The first version mark after an x without NUL has no NUL before it. */
  lemma NoNul(msg: string, x: string, e: nat)
    requires e == 5 + |x| <= |msg| && msg[4] == '/' && msg[5..e] == x && 0 as char !in x && At(msg, MARK, e)
    ensures FindText(msg, MARK, 4).Some? && 0 as char !in msg[4..FindText(msg, MARK, 4).value]
  {
    var f := FindText(msg, MARK, 4).value;
    assert f <= e;
    forall i | 4 <= i < f
      ensures msg[i] != 0 as char
    {
      assert i > 4 ==> msg[i] == x[i - 5];
    }
  }

  /** Every request has a complete head, so the server reads it at once. */
  lemma HeadComplete(url: string)
    ensures FindText(Message(url), HEAD_END, 0).Some?
  {
    var msg := Message(url);
    var front := "GET /" + Unslashed(CStr(url)) + (MARK + VERSION + END_LINE + HEADER_LINES);
    assert msg == front + HEAD_END by {
      assert TAIL == (MARK + VERSION + END_LINE + HEADER_LINES) + HEAD_END;
    }
    EndsWith(msg, front, HEAD_END);
  }

  lemma EndsWith(s: string, front: string, sub: string)
    requires s == front + sub
    ensures FindText(s, sub, 0).Some?
  {
    assert At(s, sub, |front|);
  }

  /** Nothing else comes back: a path with a NUL, a '?' or a version mark is not read as it was sent. */
  lemma OnlyTransparent(path: string, k: Keys)
    requires KeyBytes(k) && Recovers(path, k)
    ensures Transparent(path)
  {
    SentPrintable(k);
    var q := Printed(Sent(k));
    var msg := Message(path + "?" + q);
    MessageShape(path + "?" + q);
    var e := FindText(msg, MARK, 4).value;
    UriShape(msg, msg[..3], e);
    assert q != "" by {
      PairShape(Sent(k)[0]);
    }
    var line := ReadTarget(msg, msg[..3], 4, e);
    assert ReadLine(msg) == line;
    assert line.uri == Unslashed(path) && line.query.Some?;
    var p := Unslashed(path);
    assert forall i :: 0 <= i < |p| ==> p[i] != 0 as char && p[i] != '?';
    SlashHarmless(path);
  }

  lemma SlashHarmless(path: string)
    requires Transparent(Unslashed(path))
    ensures Transparent(path)
  {
    if path != [] && path[0] == '/' {
      var p := path[1..];
      assert forall i :: 1 <= i < |path| ==> path[i] == p[i - 1];
      forall i | 0 <= i < |path|
        ensures !At(path, MARK, i)
      {
        MarkChars(path, i);
        if i > 0 && i + |MARK| <= |path| {
          AtWithin(path, MARK, 1, |path|, i);
          assert path[1..|path|] == p;
        }
      }
    }
  }

  /** The server recovers a request exactly when its path is transparent; the keys can hold any bytes. */
  lemma RequestExact(path: string, k: Keys)
    requires KeyBytes(k)
    ensures Recovers(path, k) <==> Transparent(path)
  {
    if Transparent(path) {
      RequestRead(path, k);
    }
    if Recovers(path, k) {
      OnlyTransparent(path, k);
    }
  }
}
