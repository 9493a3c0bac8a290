/** The request a service sends to the next one (makeGetUrl, makeHttpRequest in SocketClientEpoll.cpp)
    and the server's reading of it (parseREQ, parseREQLine, getKeyInfo in HttpDefine.cpp). */
module HttpQuery {
  import opened Prelude
  import opened UrlCode
  import opened QueryText

  const MARK := " HTTP/"
  const VERSION := "1.0"
  const END_LINE := "\r\n"
  const HEAD_END := "\r\n\r\n"
  const HEADER_LINES := "Accept: */*\r\nAccept-Language: zh-cn\r\n" +
                       "Content-Type: application/x-www-form-urlencoded;charset=utf-8"
  const HEADERS := HEADER_LINES + HEAD_END

  predicate At(s: string, sub: string, i: nat) {
    i + |sub| <= |s| && forall k :: 0 <= k < |sub| ==> s[i + k] == sub[k]
  }

  /** std::string::find for a text. */
  function FindText(s: string, sub: string, from: nat): (r: Option<nat>)
    ensures r.Some? ==> from <= r.value && At(s, sub, r.value) && forall j :: from <= j < r.value ==> !At(s, sub, j)
    ensures r.Some? && sub != "" ==> s[r.value] == sub[0]
    ensures r.None? ==> forall j :: from <= j ==> !At(s, sub, j)
    decreases |s| - from
  {
    if from + |sub| > |s| then None else if At(s, sub, from) then Some(from) else FindText(s, sub, from + 1)
  }

  // The request line

  datatype Line =
    | NoMethod
    | NoVersion(verb: string)
    | Whole(verb: string, uri: string, query: Option<string>, ver: string)

  /** How the server cuts a request: the first blank ends the method, the first " HTTP/" after it the
      target, and a '?' in the target separates the query; only then the target's first character is
      skipped. A target that begins with '?' makes the length of the uri wrap around. */
  function ReadLine(request: string): Line {
    match Find(request, ' ', 0)
    case None => NoMethod
    case Some(m) =>
      var pos := m + 1;
      match FindText(request, MARK, pos)
      case None => NoVersion(request[..m])
      case Some(e) => ReadTarget(request, request[..m], pos, e)
  }

  /** The target between pos and the " HTTP/" at e. */
  function ReadTarget(request: string, verb: string, pos: nat, e: nat): Line
    requires pos <= e && At(request, MARK, e)
  {
    var ver := ReadVersion(request, e + |MARK|);
    assert request[e] == MARK[0];
    match Find(request, '?', pos)
    case None => Whole(verb, request[pos..e], None, ver)
    case Some(q) =>
      if q > e then Whole(verb, request[pos..e], None, ver)
      else
        var uri := if q == pos then request[pos + 1..] else request[pos + 1..q];
        Whole(verb, uri, Some(request[q + 1..e]), ver)
  }

  function ReadVersion(request: string, from: nat): string
    requires from <= |request|
  {
    match FindText(request, END_LINE, from)
    case None => request[from..]
    case Some(l) => request[from..l]
  }

  // The server's request object

  /** What parseREQLine fills in. */
  datatype Head = Head(verb: string, ver: string, uri: string, dataStr: string, data: Data)

  /** What getKeyInfo fills in. */
  datatype Info = Info(typ: string, lang: string, qid: string, ptid: string, auth: string, ccy: string,
                       csuid: string, uid: string, query: string, referId: string, curId: string)

  const FRESH_HEAD := Head("GET", "1.0", "", "", map[])
  const FRESH_INFO := Info("", "", "", "", "", "", "", "", "", "api", "")

  /** The parameters getKeyInfo looks for, in its order. */
  datatype Key = Type | Lang | Qid | Ptid | Auth | Ccy | Csuid | Uid | Query | ReferId | CurId | NextId

  function KeyText(key: Key): string {
    match key
    case Type => "type"
    case Lang => "lang"
    case Qid => "qid"
    case Ptid => "ptid"
    case Auth => "auth"
    case Ccy => "ccy"
    case Csuid => "csuid"
    case Uid => "uid"
    case Query => "query"
    case ReferId => "refer_id"
    case CurId => "cur_id"
    case NextId => "next_id"
  }

  lemma NamesDiffer(a: Key, b: Key)
    requires a != b
    ensures KeyText(a) != KeyText(b)
  {
  }

  function Get(data: Data, key: Key, default: string): string {
    if KeyText(key) in data then data[KeyText(key)] else default
  }

  /** The parameters that are not for getKeyInfo. */
  ghost function Others(data: Data): Data {
    map k | k in data && forall key: Key :: KeyText(key) != k :: data[k]
  }

  /** A key's place in getKeyInfo's order. */
  function Turn(key: Key): (n: nat)
    ensures n < 12
  {
    match key
    case Type => 0 case Lang => 1 case Qid => 2 case Ptid => 3 case Auth => 4 case Ccy => 5
    case Csuid => 6 case Uid => 7 case Query => 8 case ReferId => 9 case CurId => 10 case NextId => 11
  }

  /** data without the keys of the first n turns. */
  ghost function Dropped(data: Data, n: nat): Data {
    map k | k in data && !Taken(k, n) :: data[k]
  }

  ghost predicate Taken(k: string, n: nat) { exists key: Key :: KeyText(key) == k && Turn(key) < n }

  lemma DroppedAll(data: Data)
    ensures Dropped(data, 0) == data && Dropped(data, 12) == Others(data)
  {
  }

  lemma DroppedNext(data: Data, key: Key)
    ensures Dropped(data, Turn(key) + 1) == Dropped(data, Turn(key)) - {KeyText(key)}
  {
    var more, rest := Dropped(data, Turn(key) + 1), Dropped(data, Turn(key)) - {KeyText(key)};
    forall k: string
      ensures k in more <==> k in rest
    {
      TakenNext(key, k);
    }
    assert more.Keys == rest.Keys;
  }

  lemma NotYetDropped(data: Data, key: Key)
    ensures KeyText(key) in Dropped(data, Turn(key)) <==> KeyText(key) in data
  {
    TakenNext(key, KeyText(key));
  }

  lemma TakenNext(key: Key, k: string)
    ensures Taken(k, Turn(key) + 1) <==> Taken(k, Turn(key)) || k == KeyText(key)
    ensures !Taken(KeyText(key), Turn(key))
  {
    forall other: Key | other != key
      ensures KeyText(other) != KeyText(key) && Turn(other) != Turn(key)
    {
      NamesDiffer(other, key);
    }
  }

  /** What getKeyInfo makes of the parsed query: the sender's cur_id becomes this request's refer_id,
      the sender's next_id its cur_id. */
  ghost function WithKeys(i: Info, data: Data): Info {
    Info(Get(data, Type, i.typ), Get(data, Lang, i.lang), Get(data, Qid, i.qid), Get(data, Ptid, i.ptid),
         Get(data, Auth, i.auth), Get(data, Ccy, i.ccy), Get(data, Csuid, i.csuid), Get(data, Uid, i.uid),
         Get(data, Query, i.query), Get(data, CurId, i.referId), Get(data, NextId, i.curId))
  }

  ghost function WithLine(h: Head, line: Line): Head {
    match line
    case NoMethod => h
    case NoVersion(verb) => h.(verb := verb)
    case Whole(verb, uri, None, ver) => Head(verb, ver, uri, h.dataStr, h.data)
    case Whole(verb, uri, Some(query), ver) => Head(verb, ver, uri, query, Params(query, 0, h.data))
  }

  /** The request object after a complete head: status, head and key fields. */
  ghost function Accepted(request: string, h: Head, i: Info): (int, Head, Info) {
    var head := WithLine(h, ReadLine(request));
    if head.verb == "GET" then (2, head.(data := Others(head.data)), WithKeys(i, head.data))
    else (1, head, i)
  }

  /** The searches of parseREQLine. */
  method CutLine(request: string) returns (line: Line)
    ensures line == ReadLine(request)
  {
    var m := Find(request, ' ', 0);
    if m.None? {
      return NoMethod;
    }
    var verb, pos := request[..m.value], m.value + 1;
    var end := FindText(request, MARK, pos);
    if end.None? {
      return NoVersion(verb);
    }
    line := CutTarget(request, verb, pos, end.value);
  }

  method CutTarget(request: string, verb: string, pos: nat, end: nat) returns (line: Line)
    requires pos <= end && At(request, MARK, end)
    ensures line == ReadTarget(request, verb, pos, end)
  {
    assert request[end] == MARK[0];
    var q := Find(request, '?', pos);
    var uri, query;
    if q.None? || q.value > end {
      uri, query := request[pos..end], None;
    } else {
      uri := if q.value == pos then request[pos + 1..] else request[pos + 1..q.value];
      query := Some(request[q.value + 1..end]);
    }
    line := Whole(verb, uri, query, ReadVersion(request, end + |MARK|));
  }

  /** One find-and-erase of getKeyInfo. */
  method TakeOut(data: Data, key: Key, default: string, ghost all: Data) returns (value: string, rest: Data)
    requires data == Dropped(all, Turn(key))
    ensures value == Get(all, key, default) && rest == Dropped(all, Turn(key) + 1)
  {
    DroppedNext(all, key);
    NotYetDropped(all, key);
    value, rest := default, data;
    if KeyText(key) in data {
      value := data[KeyText(key)];
      rest := data - {KeyText(key)};
    }
    assert KeyText(key) !in data ==> data == data - {KeyText(key)};
  }

  class MJHttpRequest {
    var stat: int
    var verb: string
    var ver: string
    var uri: string
    var dataStr: string
    var data: Data
    var typ: string
    var lang: string
    var qid: string
    var ptid: string
    var auth: string
    var ccy: string
    var csuid: string
    var uid: string
    var query: string
    var referId: string
    var curId: string

    ghost function HeadNow(): Head
      reads this`verb, this`ver, this`uri, this`dataStr, this`data
    {
      Head(verb, ver, uri, dataStr, data)
    }

    ghost function InfoNow(): Info
      reads this`typ, this`lang, this`qid, this`ptid, this`auth, this`ccy,
            this`csuid, this`uid, this`query, this`referId, this`curId
    {
      Info(typ, lang, qid, ptid, auth, ccy, csuid, uid, query, referId, curId)
    }

    constructor ()
      ensures stat == 0 && HeadNow() == FRESH_HEAD && InfoNow() == FRESH_INFO
    {
      stat := 0;
      verb, ver, uri, dataStr, data := "GET", "1.0", "", "", map[];
      typ, lang, qid, ptid, auth, ccy, query := "", "", "", "", "", "", "";
      referId, curId, csuid, uid := "api", "", "", "";
    }

    method ParseREQ(request: string) returns (s: int)
      modifies this
      ensures s == stat
      ensures old(stat) != 0 || FindText(request, HEAD_END, 0).None? ==>
                stat == old(stat) && HeadNow() == old(HeadNow()) && InfoNow() == old(InfoNow())
      ensures old(stat) == 0 && FindText(request, HEAD_END, 0).Some? ==>
                (stat, HeadNow(), InfoNow()) == Accepted(request, old(HeadNow()), old(InfoNow()))
    {
      if stat == 0 {
        var end := FindText(request, HEAD_END, 0);
        if end.None? {
          return stat;
        }
        Accept(request);
      }
      return stat;
    }

    /** parseREQ once the head of the request is complete. */
    method Accept(request: string)
      modifies this
      ensures (stat, HeadNow(), InfoNow()) == Accepted(request, old(HeadNow()), old(InfoNow()))
    {
      ParseREQLine(request);
      stat := 1;
      if verb == "GET" {
        stat := 2;
        GetKeyInfo();
      }
    }

    method ParseREQLine(request: string)
      modifies this`verb, this`ver, this`uri, this`dataStr, this`data
      ensures HeadNow() == WithLine(old(HeadNow()), ReadLine(request))
    {
      var line := CutLine(request);
      match line
      case NoMethod =>
      case NoVersion(v) =>
        verb := v;
      case Whole(v, u, q, n) =>
        verb, uri := v, u;
        if q.Some? {
          dataStr := q.value;
          data := ParseParams(dataStr, data);
        }
        ver := n;
    }

    // getKeyInfo, three keys at a time

    method TakeTrip(ghost all: Data)
      requires data == Dropped(all, 0)
      modifies this`data, this`typ, this`lang, this`qid
      ensures data == Dropped(all, 3)
      ensures typ == Get(all, Type, old(typ)) && lang == Get(all, Lang, old(lang))
      ensures qid == Get(all, Qid, old(qid))
    {
      typ, data := TakeOut(data, Type, typ, all);
      lang, data := TakeOut(data, Lang, lang, all);
      qid, data := TakeOut(data, Qid, qid, all);
    }

    method TakeAuth(ghost all: Data)
      requires data == Dropped(all, 3)
      modifies this`data, this`ptid, this`auth, this`ccy
      ensures data == Dropped(all, 6)
      ensures ptid == Get(all, Ptid, old(ptid)) && auth == Get(all, Auth, old(auth))
      ensures ccy == Get(all, Ccy, old(ccy))
    {
      ptid, data := TakeOut(data, Ptid, ptid, all);
      auth, data := TakeOut(data, Auth, auth, all);
      ccy, data := TakeOut(data, Ccy, ccy, all);
    }

    method TakeUser(ghost all: Data)
      requires data == Dropped(all, 6)
      modifies this`data, this`csuid, this`uid, this`query
      ensures data == Dropped(all, 9)
      ensures csuid == Get(all, Csuid, old(csuid)) && uid == Get(all, Uid, old(uid))
      ensures query == Get(all, Query, old(query))
    {
      csuid, data := TakeOut(data, Csuid, csuid, all);
      uid, data := TakeOut(data, Uid, uid, all);
      query, data := TakeOut(data, Query, query, all);
    }

    method TakeIds(ghost all: Data)
      requires data == Dropped(all, 9)
      modifies this`data, this`referId, this`curId
      ensures data == Dropped(all, 12)
      ensures referId == Get(all, CurId, old(referId)) && curId == Get(all, NextId, old(curId))
    {
      var unused;
      unused, data := TakeOut(data, ReferId, "", all);
      referId, data := TakeOut(data, CurId, referId, all);
      curId, data := TakeOut(data, NextId, curId, all);
    }

    method GetKeyInfo()
      modifies this`data, this`typ, this`lang, this`qid, this`ptid, this`auth, this`ccy,
               this`csuid, this`uid, this`query, this`referId, this`curId
      ensures InfoNow() == WithKeys(old(InfoNow()), old(data)) && data == Others(old(data))
    {
      ghost var all := data;
      DroppedAll(all);
      TakeTrip(all);
      TakeAuth(all);
      TakeUser(all);
      TakeIds(all);
    }
  }

  // The client's session

  datatype Keys = Keys(typ: string, lang: string, qid: string, ptid: string, auth: string, ccy: string,
                       query: string, referId: string, curId: string, nextId: string, uid: string, csuid: string)

  ghost predicate KeyBytes(k: Keys) {
    Bytes(k.typ) && Bytes(k.lang) && Bytes(k.qid) && Bytes(k.ptid) && Bytes(k.auth) && Bytes(k.ccy) &&
    Bytes(k.query) && Bytes(k.referId) && Bytes(k.curId) && Bytes(k.nextId) && Bytes(k.uid) && Bytes(k.csuid)
  }

  function Sent(k: Keys): Pairs {
    [(KeyText(Type), k.typ), (KeyText(Lang), k.lang), (KeyText(Qid), k.qid), (KeyText(Ptid), k.ptid),
        (KeyText(Auth), k.auth), (KeyText(Ccy), k.ccy),
     (KeyText(Query), k.query), (KeyText(ReferId), k.referId), (KeyText(CurId), k.curId), (KeyText(NextId), k.nextId),
     (KeyText(Uid), k.uid), (KeyText(Csuid), k.csuid)]
  }

  lemma SentPrintable(k: Keys)
    requires KeyBytes(k)
    ensures Printable(Sent(k))
  {
  }

  /** What is left of a C string: everything before the first NUL. */
  function CStr(s: string): string {
    var n := Find(s, 0 as char, 0);
    if n.None? then s else s[..n.value]
  }

  function Unslashed(s: string): string {
    if s != [] && s[0] == '/' then s[1..] else s
  }

  /** What every request has after its target. */
  const TAIL := MARK + VERSION + END_LINE + HEADERS

  function Message(url: string): string {
    "GET /" + Unslashed(CStr(url)) + TAIL
  }

  class MJSocketSession {
    var urlPath: string
    var keys: Keys
    var msg: string

    constructor (urlPath: string, keys: Keys)
      ensures this.urlPath == urlPath && this.keys == keys && msg == ""
    {
      this.urlPath, this.keys, msg := urlPath, keys, "";
    }

    method MakeGetUrl() returns (url: string)
      requires KeyBytes(keys)
      ensures Printable(Sent(keys)) && url == urlPath + "?" + Printed(Sent(keys))
    {
      SentPrintable(keys);
      var params := PrintAll(Sent(keys));
      url := urlPath + "?" + params;
    }

    method MakeHttpRequest()
      requires KeyBytes(keys)
      modifies this`msg
      ensures Printable(Sent(keys)) && msg == Message(urlPath + "?" + Printed(Sent(keys)))
    {
      var url := MakeGetUrl();
      var qr := CStr(url);
      if qr != [] && qr[0] == '/' {
        qr := qr[1..];
      }
      msg := "GET /" + qr + TAIL;
    }
  }

  /** Key=code pieces appended one after the other, each but the first led by '&'. */
  method PrintAll(ps: Pairs) returns (text: string)
    requires Printable(ps) && ps != []
    ensures text == Printed(ps)
  {
    var code := UrlEncode(ps[0].1);
    text := ps[0].0 + "=" + code;
    assert ps[..1] == [ps[0]];
    for i := 1 to |ps|
      invariant Printable(ps[..i]) && text == Printed(ps[..i])
    {
      code := UrlEncode(ps[i].1);
      PrintedAt(ps, i);
      text := text + "&" + (ps[i].0 + "=" + code);
    }
    assert ps[..|ps|] == ps;
  }

  lemma PrintedAt(ps: Pairs, i: nat)
    requires Printable(ps) && 0 < i < |ps|
    ensures Printable(ps[..i]) && Printable(ps[..i + 1])
    ensures Printed(ps[..i + 1]) == Printed(ps[..i]) + "&" + Pair(ps[i])
  {
    assert ps[..i + 1] == ps[..i] + [ps[i]];
    PrintedNext(ps[..i], ps[i]);
  }
}
