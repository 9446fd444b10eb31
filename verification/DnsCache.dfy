// The response cache of the DNS server.
module DnsCache {
  import opened Options
  import opened Folds
  import opened DnsNames
  import opened Numerals

  const MAX_UINT32: nat := 0xFFFF_FFFF

  type uint32 = x: nat | x <= 0xFFFF_FFFF

  type uint16 = x: nat | x <= 0xFFFF

  datatype Question = Question(name: string, qtype: uint16, qclass: uint16)

  // An answer is its TTL, if it has a header, and the rest of it.
  datatype Answer = Answer(ttl: Option<uint32>, data: string)

  const OPCODE_QUERY: nat := 0
  const RCODE_SUCCESS: nat := 0

  datatype Header = Header(
    id: uint16, response: bool, opcode: nat, recursionDesired: bool, checkingDisabled: bool, rcode: nat)

  datatype Msg = Msg(header: Header, question: seq<Question>, answer: seq<Answer>)

  // Readdresses a copy of a message to a request, as the DNS library does.
  function SetReply(m: Msg, req: Msg): (r: Msg)
    ensures r.header.id == req.header.id && r.answer == m.answer && r.header.response && r.header.rcode == 0
    ensures r.header.opcode == req.header.opcode
    ensures r.header.recursionDesired
            == if req.header.opcode == 0 then req.header.recursionDesired else m.header.recursionDesired
    ensures r.header.checkingDisabled
            == if req.header.opcode == 0 then req.header.checkingDisabled else m.header.checkingDisabled
    ensures r.question == if req.question != [] then [req.question[0]] else m.question
  {
    var query := req.header.opcode == OPCODE_QUERY;
    Msg(Header(req.header.id, true, req.header.opcode,
               if query then req.header.recursionDesired else m.header.recursionDesired,
               if query then req.header.checkingDisabled else m.header.checkingDisabled,
               RCODE_SUCCESS),
        if req.question != [] then [req.question[0]] else m.question, m.answer)
  }

  // ---- the key ----

  function ToLowerChar(c: char): char {
    if 'A' <= c <= 'Z' then c - 'A' + 'a' else c
  }

  // strings.ToLower on ASCII.
  function ToLower(s: string): (r: string)
    ensures |r| == |s| && forall i :: 0 <= i < |s| ==> r[i] == ToLowerChar(s[i])
  {
    seq(|s|, i requires 0 <= i < |s| => ToLowerChar(s[i]))
  }

  function CacheKey(m: Msg): string
    requires m.question != []
  {
    ToLower(Fqdn(m.question[0].name)) + "::" + Decimal(m.question[0].qtype)
  }

  // The digits at the end of a key start after its last colon.
  lemma DigitsAtEnd(key: string, a: string, s: string, b: string, t: string)
    requires key == a + "::" + s && key == b + "::" + t
    requires forall i :: 0 <= i < |t| ==> IsDigit(t[i])
    ensures |t| <= |s|
  {
    assert key[|a| + 1] == ':';
    assert forall i :: |key| - |t| <= i < |key| ==> key[i] == t[i - (|key| - |t|)];
  }

  lemma SplitKey(a: string, b: string, x: nat, y: nat)
    requires a + "::" + Decimal(x) == b + "::" + Decimal(y)
    ensures a == b && x == y
  {
    var s, t := Decimal(x), Decimal(y);
    var key := a + "::" + s;
    DigitsAtEnd(key, a, s, b, t);
    DigitsAtEnd(key, b, t, a, s);
    assert key[..|a|] == a && key[..|b|] == b;
    assert key[|a| + 2..] == s && key[|b| + 2..] == t;
    DecimalRoundTrip(x);
    DecimalRoundTrip(y);
  }

  // Names that differ in case only, or in a final dot that one of them leaves out.
  ghost predicate SameName(a: string, b: string) {
    || ToLower(a) == ToLower(b)
    || (!IsFqdn(a) && IsFqdn(b) && ToLower(a) + "." == ToLower(b))
    || (!IsFqdn(b) && IsFqdn(a) && ToLower(a) == ToLower(b) + ".")
  }

  lemma {:induction false} LowerBackslashes(s: string)
    ensures TrailingBackslashes(ToLower(s)) == TrailingBackslashes(s)
    decreases |s|
  {
    if s != "" && s[|s| - 1] == '\\' {
      assert ToLower(s)[..|s| - 1] == ToLower(s[..|s| - 1]);
      LowerBackslashes(s[..|s| - 1]);
    }
  }

  lemma LowerFqdn(s: string)
    ensures IsFqdn(ToLower(s)) == IsFqdn(s) && ToLower(Fqdn(s)) == Fqdn(ToLower(s))
  {
    if s != "" {
      LowerBackslashes(s[..|s| - 1]);
      assert ToLower(s)[..|s| - 1] == ToLower(s[..|s| - 1]);
    }
    assert ToLower(s + ".") == ToLower(s) + ".";
  }

  lemma SameFqdn(a: string, b: string)
    ensures ToLower(Fqdn(a)) == ToLower(Fqdn(b)) <==> SameName(a, b)
  {
    LowerFqdn(a);
    LowerFqdn(b);
    var x, y := ToLower(a), ToLower(b);
    assert (x + ".")[..|x|] == x && (y + ".")[..|y|] == y;
  }

  // Two requests share an entry exactly if their names are the same up to case and a final dot and they ask
  // for the same type. The class plays no part.
  lemma SharedKey(m: Msg, m': Msg)
    requires m.question != [] && m'.question != []
    ensures CacheKey(m) == CacheKey(m') <==>
              ToLower(Fqdn(m.question[0].name)) == ToLower(Fqdn(m'.question[0].name))
              && m.question[0].qtype == m'.question[0].qtype
    ensures CacheKey(m) == CacheKey(m') <==>
              SameName(m.question[0].name, m'.question[0].name) && m.question[0].qtype == m'.question[0].qtype
  {
    var q, q' := m.question[0], m'.question[0];
    if CacheKey(m) == CacheKey(m') {
      SplitKey(ToLower(Fqdn(q.name)), ToLower(Fqdn(q'.name)), q.qtype, q'.qtype);
    }
    SameFqdn(q.name, q'.name);
  }

  // ---- lower case, and the final dot ----

  lemma LowerCharacters(i: nat)
    requires i < 26
    ensures ToLowerChar("ABCDEFGHIJKLMNOPQRSTUVWXYZ"[i]) == "abcdefghijklmnopqrstuvwxyz"[i]
  {
  }

  lemma OtherCharacters(c: char)
    ensures c !in "ABCDEFGHIJKLMNOPQRSTUVWXYZ" ==> ToLowerChar(c) == c
  {
  }

  function Backslashes(n: nat): (s: string)
    ensures |s| == n
  {
    seq(n, _ => '\\')
  }

  lemma {:induction false} CountBackslashes(s: string, n: nat)
    requires s == "" || s[|s| - 1] != '\\'
    ensures TrailingBackslashes(s + Backslashes(n)) == n
    decreases n
  {
    if n == 0 {
      assert s + Backslashes(0) == s;
    } else {
      assert (s + Backslashes(n))[..|s| + n - 1] == s + Backslashes(n - 1);
      CountBackslashes(s, n - 1);
    }
  }

  // A name is fully qualified if it ends in a dot with an even number of backslashes before it, and every other name
  // gets a dot.
  lemma QualifiedExactly(s: string, n: nat)
    requires s == "" || s[|s| - 1] != '\\'
    ensures Fqdn(s + Backslashes(n) + ".")
            == if n % 2 == 0 then s + Backslashes(n) + "." else s + Backslashes(n) + "." + "."
    ensures s == "" || s[|s| - 1] != '.' ==> Fqdn(s) == s + "."
  {
    var t := s + Backslashes(n);
    CountBackslashes(s, n);
    assert (t + ".")[..|t|] == t;
  }

  // ---- what can be cached ----

  // The least TTL in the headers; an answer without a header has none.
  function MinTtl(answers: seq<Answer>): (r: nat)
    ensures r <= MAX_UINT32
    ensures forall a :: a in answers && a.ttl.Some? ==> r <= a.ttl.value
    ensures r == MAX_UINT32 || exists a :: a in answers && a.ttl == Some(r)
    decreases |answers|
  {
    if answers == [] then MAX_UINT32
    else
      var before, last := answers[..|answers| - 1], answers[|answers| - 1];
      assert answers == before + [last];
      var r := MinTtl(before);
      if last.ttl.Some? && r > last.ttl.value then last.ttl.value else r
  }

  // No header says zero, and some header says less than the maximum.
  predicate Cacheable(res: Msg) {
    0 < MinTtl(res.answer) < MAX_UINT32
  }

  lemma CacheableExactly(res: Msg)
    ensures Cacheable(res) <==> (forall a :: a in res.answer ==> a.ttl != Some(0))
                                && exists a :: a in res.answer && a.ttl.Some? && a.ttl.value < 0xFFFF_FFFF
  {
    var r := MinTtl(res.answer);
    if r < MAX_UINT32 {
      var a :| a in res.answer && a.ttl == Some(r);
      assert a.ttl.value < 0xFFFF_FFFF;
    }
  }

  method CheckHasValidTTL(m: Msg) returns (hasTTL: bool, ttl: uint32)
    ensures hasTTL <==> Cacheable(m)
    ensures hasTTL <==> (forall a :: a in m.answer ==> a.ttl != Some(0))
                        && exists a :: a in m.answer && a.ttl.Some? && a.ttl.value < MAX_UINT32
    ensures ttl == if hasTTL then MinTtl(m.answer) else 0
  {
    ttl := MAX_UINT32;
    var i := 0;
    while i < |m.answer|
      invariant 0 <= i <= |m.answer|
      invariant ttl == MinTtl(m.answer[..i])
    {
      assert m.answer[..i + 1][..i] == m.answer[..i];
      if m.answer[i].ttl.Some? {
        if ttl > m.answer[i].ttl.value {
          ttl := m.answer[i].ttl.value;
        }
      }
      i := i + 1;
    }
    assert m.answer[..i] == m.answer;
    if ttl == MAX_UINT32 {
      ttl := 0;
    }
    CacheableExactly(m);
    hasTTL := ttl > 0;
  }

  // ---- the cache ----

  datatype Entry = Entry(res: Msg, timeInSec: int, ttl: uint32)

  type Entries = map<string, Entry>

  predicate Fresh(e: Entry, now: int) {
    now - e.timeInSec <= e.ttl
  }

  function AfterPut(c: Entries, req: Msg, res: Msg, now: int): Entries
    requires req.question != []
  {
    if Cacheable(res) then c[CacheKey(req) := Entry(res, now, MinTtl(res.answer))] else c
  }

  function AfterSweep(c: Entries, now: int): Entries {
    map k | k in c && Fresh(c[k], now) :: c[k]
  }

  function Found(c: Entries, key: string, now: int): Option<Msg> {
    if key in c && Fresh(c[key], now) then Some(c[key].res) else None
  }

  class DnsMemCache {
    var cache: Entries

    constructor ()
      ensures cache == map[]
    {
      cache := map[];
    }

    method Put(req: Msg, res: Msg, now: int)
      requires req.question != []
      modifies this
      ensures cache == AfterPut(old(cache), req, res, now)
    {
      var hasTTL, ttl := CheckHasValidTTL(res);
      if !hasTTL {
        return;
      }
      cache := cache[CacheKey(req) := Entry(res, now, ttl)];
    }

    method Get(req: Msg, now: int) returns (r: Option<Msg>)
      requires req.question != []
      ensures var found := Found(cache, CacheKey(req), now);
              r == if found.Some? then Some(SetReply(found.value, req)) else None
      ensures r.Some? <==>
                CacheKey(req) in cache && now - cache[CacheKey(req)].timeInSec <= cache[CacheKey(req)].ttl
      ensures r.Some? ==>
                r.value.header.id == req.header.id && r.value.header.response && r.value.question == [req.question[0]]
                && r.value.answer == cache[CacheKey(req)].res.answer
    {
      var key := CacheKey(req);
      if key !in cache {
        return None;
      }
      var e := cache[key];
      if now - e.timeInSec > e.ttl {
        r := None;
      } else {
        r := Some(SetReply(e.res, req));
      }
    }

    method Cleanup(now: int)
      modifies this
      ensures cache == AfterSweep(old(cache), now)
      ensures forall k :: k in old(cache) ==>
                (k in cache <==> now - old(cache)[k].timeInSec <= old(cache)[k].ttl)
    {
      var rest := cache.Keys;
      while rest != {}
        invariant rest <= cache.Keys <= old(cache).Keys
        invariant forall k :: k in cache ==> cache[k] == old(cache)[k]
        invariant forall k :: k in old(cache) && k !in rest ==> (k in cache <==> Fresh(old(cache)[k], now))
      {
        var k :| k in rest;
        if now - cache[k].timeInSec > cache[k].ttl {
          cache := cache - {k};
        }
        rest := rest - {k};
      }
    }
  }

  // ---- histories ----

  datatype Op = Put(req: Msg, res: Msg, now: int) | Sweep(now: int)

  function Apply(c: Entries, op: Op): Entries {
    match op
    case Put(req, res, now) => if req.question != [] then AfterPut(c, req, res, now) else c
    case Sweep(now) => AfterSweep(c, now)
  }

  function After(h: seq<Op>): Entries {
    FoldLeft(Apply, map[], h)
  }

  // The entry that the last cacheable put for a key made.
  function LastPut(h: seq<Op>, key: string): Option<Entry>
    decreases |h|
  {
    if h == [] then None
    else
      var op := h[|h| - 1];
      if op.Put? && op.req.question != [] && Cacheable(op.res) && CacheKey(op.req) == key
      then Some(Entry(op.res, op.now, MinTtl(op.res.answer)))
      else LastPut(h[..|h| - 1], key)
  }

  // The cache holds the last put, or a sweep has found it too old.
  ghost predicate Tracks(c: Entries, h: seq<Op>, key: string) {
    if key in c then LastPut(h, key) == Some(c[key])
    else LastPut(h, key).Some? ==> exists op :: op in h && op.Sweep? && !Fresh(LastPut(h, key).value, op.now)
  }

  lemma {:induction false} CacheTracks(h: seq<Op>, key: string)
    ensures Tracks(After(h), h, key)
    decreases |h|
  {
    if h != [] {
      var before, op := h[..|h| - 1], h[|h| - 1];
      assert h == before + [op];
      CacheTracks(before, key);
      FoldLeftConcat(Apply, map[], before, [op]);
      assert FoldLeft(Apply, After(before), [op]) == FoldLeft(Apply, Apply(After(before), op), []);
      assert op in h && forall o :: o in before ==> o in h;
    }
  }

  // At any time not before the sweeps so far, a lookup finds the response of the last cacheable put for its
  // key exactly if that is no older than its TTL.
  lemma GetIsLastPut(h: seq<Op>, key: string, now: int)
    requires forall op :: op in h && op.Sweep? ==> op.now <= now
    ensures Found(After(h), key, now)
            == var last := LastPut(h, key);
               if last.Some? && Fresh(last.value, now) then Some(last.value.res) else None
  {
    CacheTracks(h, key);
  }

  // The i-th operation is the put that a lookup at this time is answered from: a put for the key of a response in
  // which no answer's TTL is zero and some answer's is below the maximum, no such put came later, and no more seconds
  // have passed than any TTL in it says.
  ghost predicate Answers(h: seq<Op>, i: int, key: string, now: int) {
    && IsLastPut(h, i, key)
    && forall a :: a in h[i].res.answer && a.ttl.Some? ==> now - h[i].now <= a.ttl.value
  }

  ghost predicate IsLastPut(h: seq<Op>, i: int, key: string) {
    0 <= i < |h| && PutsFor(h[i], key) && forall j :: i < j < |h| ==> !PutsFor(h[j], key)
  }

  ghost predicate PutsFor(op: Op, key: string) {
    && op.Put? && op.req.question != [] && CacheKey(op.req) == key
    && (forall a :: a in op.res.answer ==> a.ttl != Some(0))
    && exists a :: a in op.res.answer && a.ttl.Some? && a.ttl.value < 0xFFFF_FFFF
  }

  lemma YoungerThanAll(res: Msg, age: int)
    requires Cacheable(res)
    ensures age <= MinTtl(res.answer) <==> forall a :: a in res.answer && a.ttl.Some? ==> age <= a.ttl.value
  {
    var r := MinTtl(res.answer);
    var a :| a in res.answer && a.ttl == Some(r);
  }

  lemma PutsForExactly(op: Op, key: string)
    ensures PutsFor(op, key)
            <==> op.Put? && op.req.question != [] && Cacheable(op.res) && CacheKey(op.req) == key
  {
    if op.Put? {
      CacheableExactly(op.res);
    }
  }

  lemma LastPutSplit(h: seq<Op>, key: string)
    requires h != []
    ensures LastPut(h, key)
            == var op := h[|h| - 1];
               if PutsFor(op, key) then Some(Entry(op.res, op.now, MinTtl(op.res.answer)))
               else LastPut(h[..|h| - 1], key)
  {
    PutsForExactly(h[|h| - 1], key);
  }

  lemma OneMoreOp(h: seq<Op>, i: int, key: string)
    requires h != [] && !PutsFor(h[|h| - 1], key)
    ensures IsLastPut(h, i, key) <==> IsLastPut(h[..|h| - 1], i, key)
  {
    OneMoreItem((op: Op) => PutsFor(op, key), h, i);
  }

  ghost predicate IsLast<T>(p: T -> bool, items: seq<T>, i: int) {
    0 <= i < |items| && p(items[i]) && forall j :: i < j < |items| ==> !p(items[j])
  }

  lemma OneMoreItem<T>(p: T -> bool, items: seq<T>, i: int)
    requires items != [] && !p(items[|items| - 1])
    ensures IsLast(p, items, i) <==> IsLast(p, items[..|items| - 1], i)
  {
    var before := items[..|items| - 1];
    assert forall j :: 0 <= j < |before| ==> before[j] == items[j];
  }

  ghost predicate LastPutIs(h: seq<Op>, key: string, i: int) {
    if LastPut(h, key).None? then forall j :: 0 <= j < |h| ==> !PutsFor(h[j], key)
    else IsLastPut(h, i, key) && LastPut(h, key) == Some(Entry(h[i].res, h[i].now, MinTtl(h[i].res.answer)))
  }

  lemma OtherLast(h: seq<Op>, key: string, i: int)
    requires h != [] && !PutsFor(h[|h| - 1], key) && LastPutIs(h[..|h| - 1], key, i)
    ensures LastPutIs(h, key, i)
  {
    LastPutSplit(h, key);
    OneMoreOp(h, i, key);
    var before := h[..|h| - 1];
    assert forall j :: 0 <= j < |before| ==> before[j] == h[j];
  }

  lemma {:induction false} LastPutExactly(h: seq<Op>, key: string) returns (i: int)
    ensures LastPutIs(h, key, i)
    decreases |h|
  {
    i := |h| - 1;
    if h != [] {
      LastPutSplit(h, key);
      if !PutsFor(h[|h| - 1], key) {
        i := LastPutExactly(h[..|h| - 1], key);
        OtherLast(h, key, i);
      }
    }
  }

  // In terms of the puts alone: a lookup finds a response exactly if some put answers it, and then that put's.
  lemma LookupExactly(h: seq<Op>, key: string, now: int)
    requires forall op :: op in h && op.Sweep? ==> op.now <= now
    ensures Found(After(h), key, now).Some? <==> exists i :: Answers(h, i, key, now)
    ensures forall i :: Answers(h, i, key, now) ==> Found(After(h), key, now) == Some(h[i].res)
  {
    GetIsLastPut(h, key, now);
    var i := LastPutExactly(h, key);
    if LastPut(h, key).Some? {
      PutsForExactly(h[i], key);
      YoungerThanAll(h[i].res, now - h[i].now);
      assert Answers(h, i, key, now) <==> Found(After(h), key, now).Some?;
      forall j | Answers(h, j, key, now) ensures j == i {
        assert PutsFor(h[j], key) && PutsFor(h[i], key);
      }
    }
  }

  function WithoutSweeps(h: seq<Op>): seq<Op>
    decreases |h|
  {
    if h == [] then []
    else WithoutSweeps(h[..|h| - 1]) + if h[|h| - 1].Sweep? then [] else [h[|h| - 1]]
  }

  lemma {:induction false} LastPutWithoutSweeps(h: seq<Op>, key: string)
    ensures LastPut(WithoutSweeps(h), key) == LastPut(h, key)
    ensures forall op :: op in WithoutSweeps(h) ==> op.Put?
    decreases |h|
  {
    if h != [] {
      LastPutWithoutSweeps(h[..|h| - 1], key);
      var puts := WithoutSweeps(h[..|h| - 1]);
      assert puts + [] == puts;
      assert (puts + [h[|h| - 1]])[..|puts|] == puts;
    }
  }

  // Sweeps change no later lookup.
  lemma SweepsUnseen(h: seq<Op>, key: string, now: int)
    requires forall op :: op in h && op.Sweep? ==> op.now <= now
    ensures Found(After(h), key, now) == Found(After(WithoutSweeps(h)), key, now)
  {
    LastPutWithoutSweeps(h, key);
    GetIsLastPut(h, key, now);
    GetIsLastPut(WithoutSweeps(h), key, now);
  }
}
