/**
 The byte format in which the session managers are saved with a snapshot, and what restoring gives.

 Maps are written in an arbitrary order, so the bytes are described for every enumeration of the keys.
 The application's response serializer is a parameter that is trusted to read back what it wrote.
 Reading an error text allocates from a pool that panics for length 0 and beyond 16 MiB; `Panics` is
 that outcome.
 */
module SessionSnapshot {
  import opened Common
  import opened Sessions

  datatype Parsed<+T> = Ok(value: T, rest: seq<Byte>) | Bad | Panics

  const MAX_ALLOC: nat := 16 * 1024 * 1024
  const WORD: nat := 0x1_0000_0000_0000_0000

  // ---------------------------------------------------------------------------
  // Words
  // ---------------------------------------------------------------------------

  function Power(n: nat): nat { if n == 0 then 1 else 256 * Power(n - 1) }

  /** The i-th byte of a number, the lowest first. */
  function Digit(v: nat, i: nat): Byte { if i == 0 then v % 256 else Digit(v / 256, i - 1) }

  function FromLittleEndian(b: seq<Byte>): nat {
    if b == [] then 0 else b[0] + 256 * FromLittleEndian(b[1..])
  }

  lemma {:induction false} DigitsRoundTrip(v: nat, b: seq<Byte>)
    requires v < Power(|b|) && forall i :: 0 <= i < |b| ==> b[i] == Digit(v, i)
    ensures FromLittleEndian(b) == v
  {
    if b == [] {
    } else {
      assert forall i :: 0 <= i < |b[1..]| ==> b[1..][i] == Digit(v, i + 1) == Digit(v / 256, i);
      DigitsRoundTrip(v / 256, b[1..]);
    }
  }

  lemma PowerOf8()
    ensures Power(8) == WORD
  {
    assert Power(4) == 0x1_0000_0000;
  }

  function WriteWord(v: nat): seq<Byte> { seq(8, i requires 0 <= i < 8 => Digit(v, i)) }

  function ReadWord(b: seq<Byte>): Parsed<nat> {
    if |b| < 8 then Bad else Ok(FromLittleEndian(b[..8]), b[8..])
  }

  lemma WordRoundTrip(v: nat, rest: seq<Byte>)
    requires v < WORD
    ensures ReadWord(WriteWord(v) + rest) == Ok(v, rest)
  {
    PowerOf8();
    DigitsRoundTrip(v, WriteWord(v));
    assert (WriteWord(v) + rest)[..8] == WriteWord(v) && (WriteWord(v) + rest)[8..] == rest;
  }

  /** `uint64(x)` and `int64(v)`. */
  function AsWord(x: int): nat
    requires -INT64_HALF <= x < INT64_HALF
  {
    if x < 0 then x + UINT64 else x
  }

  function FromWord(v: nat): int { if v >= INT64_HALF then v - UINT64 else v }

  // ---------------------------------------------------------------------------
  // Apply results
  // ---------------------------------------------------------------------------

  datatype ResponseCodec<!R> = ResponseCodec(ser: R -> seq<Byte>, de: seq<Byte> -> Parsed<R>)

  ghost predicate Faithful<R(!new)>(c: ResponseCodec<R>) {
    forall r, rest :: c.de(c.ser(r) + rest) == Ok(r, rest)
  }

  const RESPONSE := 1
  const RESPONSE_ERR := 2
  const RESPONSE_NIL := 3

  function Marshal<R>(c: ResponseCodec<R>, ar: ApplyResult<R>): seq<Byte> {
    WriteWord(ar.logIndex) +
    (if ar.response.None? && ar.error.None? then WriteWord(RESPONSE_NIL)
     else if ar.error.Some? then WriteWord(RESPONSE_ERR) + (WriteWord(|ar.error.value|) + ar.error.value)
     else WriteWord(RESPONSE) + c.ser(ar.response.value))
  }

  function ReadError<R>(logIndex: nat, b: seq<Byte>): Parsed<ApplyResult<R>> {
    match ReadWord(b)
    case Ok(size, rest) =>
      if size == 0 || size > MAX_ALLOC then Panics
      else if |rest| < size then Bad
      else Ok(ApplyResult(logIndex, None, Some(rest[..size])), rest[size..])
    case Bad => Bad
    case Panics => Panics
  }

  function Unmarshal<R>(c: ResponseCodec<R>, b: seq<Byte>): Parsed<ApplyResult<R>> {
    match ReadWord(b)
    case Ok(logIndex, b1) =>
      (match ReadWord(b1)
       case Ok(kind, b2) =>
         if kind == RESPONSE then
           (match c.de(b2)
            case Ok(r, rest) => Ok(ApplyResult(logIndex, Some(r), None), rest)
            case Bad => Bad
            case Panics => Panics)
         else if kind == RESPONSE_ERR then ReadError(logIndex, b2)
         else if kind == RESPONSE_NIL then Ok(ApplyResult(logIndex, None, None), b2)
         else Bad
       case _ => Bad)
    case _ => Bad
  }

  /** What is left of a result: a response beside an error is not saved. */
  function Normal<R>(ar: ApplyResult<R>): ApplyResult<R> {
    if ar.error.Some? then ar.(response := None) else ar
  }

  predicate Writable<R>(ar: ApplyResult<R>) {
    ar.logIndex < WORD && (ar.error.Some? ==> |ar.error.value| < WORD)
  }

  predicate Readable<R>(ar: ApplyResult<R>) {
    ar.error.Some? ==> 1 <= |ar.error.value| <= MAX_ALLOC
  }

  /** A result is read back, up to the response beside an error, exactly if its error text is not empty
      and not beyond 16 MiB; otherwise reading panics. */
  lemma ResultRoundTrip<R(!new)>(c: ResponseCodec<R>, ar: ApplyResult<R>, rest: seq<Byte>)
    requires Faithful(c) && Writable(ar)
    ensures Unmarshal(c, Marshal(c, ar) + rest) == if Readable(ar) then Ok(Normal(ar), rest) else Panics
  {
    var tail := Marshal(c, ar)[|WriteWord(ar.logIndex)|..] + rest;
    assert Marshal(c, ar) + rest == WriteWord(ar.logIndex) + tail;
    WordRoundTrip(ar.logIndex, tail);
    if ar.error.Some? {
      var text := ar.error.value;
      assert tail == WriteWord(RESPONSE_ERR) + (WriteWord(|text|) + (text + rest));
      WordRoundTrip(RESPONSE_ERR, WriteWord(|text|) + (text + rest));
      WordRoundTrip(|text|, text + rest);
      assert (text + rest)[..|text|] == text && (text + rest)[|text|..] == rest;
    } else if ar.response.Some? {
      var bytes := c.ser(ar.response.value);
      assert tail == WriteWord(RESPONSE) + (bytes + rest);
      WordRoundTrip(RESPONSE, bytes + rest);
    } else {
      assert tail == WriteWord(RESPONSE_NIL) + rest;
      WordRoundTrip(RESPONSE_NIL, rest);
    }
  }

  /** An error without text, as `errors.New("")` makes one, cannot be read back. */
  lemma EmptyErrorPanics<R(!new)>(c: ResponseCodec<R>, index: nat, rest: seq<Byte>)
    requires Faithful(c) && Writable<R>(ApplyResult(index, None, Some([])))
    ensures Unmarshal(c, Marshal(c, ApplyResult(index, None, Some([]))) + rest) == Panics
  {
    ResultRoundTrip(c, ApplyResult(index, None, Some([])), rest);
  }

  // ---------------------------------------------------------------------------
  // One session
  // ---------------------------------------------------------------------------

  /** An order in which ranging over a map may visit its keys. */
  ghost predicate Enumerates(order: seq<nat>, keys: set<nat>) {
    Distinct(order) && forall k :: k in order <==> k in keys
  }

  function WritePairs<R>(c: ResponseCodec<R>, rs: Results<R>, order: seq<nat>): seq<Byte>
    requires forall k :: k in order ==> k in rs
  {
    if order == [] then []
    else WriteWord(order[0]) + (Marshal(c, rs[order[0]]) + WritePairs(c, rs, order[1..]))
  }

  function WriteSession<R>(c: ResponseCodec<R>, s: SessionV<R>, order: seq<nat>): seq<Byte>
    requires forall k :: k in order ==> k in s.results
    requires -INT64_HALF <= s.lastActive < INT64_HALF
  {
    WriteWord(s.id) + (WriteWord(AsWord(s.lastActive)) + (WriteWord(|s.results|) + WritePairs(c, s.results, order)))
  }

  function ReadPairs<R>(c: ResponseCodec<R>, b: seq<Byte>, count: nat, acc: Results<R>): Parsed<Results<R>>
    decreases count
  {
    if count == 0 then Ok(acc, b)
    else match ReadWord(b)
      case Ok(q, b1) =>
        (match Unmarshal(c, b1)
         case Ok(ar, b2) => ReadPairs(c, b2, count - 1, acc[q := ar])
         case Bad => Bad
         case Panics => Panics)
      case _ => Bad
  }

  function ReadSession<R>(c: ResponseCodec<R>, b: seq<Byte>): Parsed<SessionV<R>> {
    match ReadWord(b)
    case Ok(id, b1) =>
      (match ReadWord(b1)
       case Ok(at, b2) =>
         (match ReadWord(b2)
          case Ok(count, b3) =>
            (match ReadPairs(c, b3, count, map[])
             case Ok(rs, rest) => Ok(SessionV(id, FromWord(at), rs), rest)
             case Bad => Bad
             case Panics => Panics)
          case _ => Bad)
       case _ => Bad)
    case _ => Bad
  }

  function NormalResults<R>(rs: Results<R>): Results<R> { map q | q in rs :: Normal(rs[q]) }

  function NormalSession<R>(s: SessionV<R>): SessionV<R> { s.(results := NormalResults(s.results)) }

  ghost predicate WritableSession<R>(s: SessionV<R>) {
    && s.id < WORD && -INT64_HALF <= s.lastActive < INT64_HALF && |s.results| < WORD
    && forall q :: q in s.results ==> q < WORD && Writable(s.results[q])
  }

  ghost predicate ReadableSession<R>(s: SessionV<R>) {
    forall q :: q in s.results ==> Readable(s.results[q])
  }

  ghost predicate AllReadable<R>(rs: Results<R>, order: seq<nat>)
    requires forall k :: k in order ==> k in rs
  {
    forall k :: k in order ==> Readable(rs[k])
  }

  function Restored<R>(rs: Results<R>, order: seq<nat>): Results<R>
    requires forall k :: k in order ==> k in rs
  {
    map k | k in order :: Normal(rs[k])
  }

  lemma Assoc3<T>(a: seq<T>, b: seq<T>, c: seq<T>, d: seq<T>)
    ensures (a + (b + c)) + d == a + (b + (c + d))
  {
    Assoc(a, b + c, d);
    Assoc(b, c, d);
  }

  lemma PairStep<R(!new)>(c: ResponseCodec<R>, q: nat, ar: ApplyResult<R>, b: seq<Byte>, count: nat, acc: Results<R>)
    requires Faithful(c) && q < WORD && Writable(ar) && count > 0
    ensures ReadPairs(c, WriteWord(q) + (Marshal(c, ar) + b), count, acc)
         == if Readable(ar) then ReadPairs(c, b, count - 1, acc[q := Normal(ar)]) else Panics
  {
    WordRoundTrip(q, Marshal(c, ar) + b);
    ResultRoundTrip(c, ar, b);
  }

  lemma RestoredStep<R>(rs: Results<R>, order: seq<nat>, acc: Results<R>)
    requires order != [] && forall k :: k in order ==> k in rs
    ensures acc[order[0] := Normal(rs[order[0]])] + Restored(rs, order[1..]) == acc + Restored(rs, order)
    ensures AllReadable(rs, order) <==> Readable(rs[order[0]]) && AllReadable(rs, order[1..])
  {
    assert order == [order[0]] + order[1..];
  }

  lemma {:induction false} PairsRoundTrip<R(!new)>(c: ResponseCodec<R>, rs: Results<R>, order: seq<nat>, acc: Results<R>, rest: seq<Byte>)
    requires Faithful(c) && forall k :: k in order ==> k in rs && k < WORD && Writable(rs[k])
    ensures ReadPairs(c, WritePairs(c, rs, order) + rest, |order|, acc)
         == if AllReadable(rs, order) then Ok(acc + Restored(rs, order), rest) else Panics
  {
    if order == [] {
      assert WritePairs(c, rs, order) + rest == rest;
      assert acc + Restored(rs, order) == acc;
    } else {
      var q, more := order[0], order[1..];
      var b := WritePairs(c, rs, more) + rest;
      Assoc3(WriteWord(q), Marshal(c, rs[q]), WritePairs(c, rs, more), rest);
      PairStep(c, q, rs[q], b, |order|, acc);
      RestoredStep(rs, order, acc);
      PairsRoundTrip(c, rs, more, acc[q := Normal(rs[q])], rest);
    }
  }

  lemma {:induction false} EnumerationLength(order: seq<nat>, keys: set<nat>)
    requires Enumerates(order, keys)
    ensures |order| == |keys|
  {
    if order != [] {
      var k, more := order[0], order[1..];
      assert order == [k] + more;
      assert Distinct(more) by { assert forall i :: 0 <= i < |more| ==> more[i] == order[i + 1]; }
      assert k !in more by { assert forall i :: 0 <= i < |more| ==> more[i] == order[i + 1]; }
      EnumerationLength(more, keys - {k});
    } else {
      assert keys == {};
    }
  }

  lemma HeaderRoundTrip<R>(c: ResponseCodec<R>, id: nat, at: nat, count: nat, b: seq<Byte>)
    requires id < WORD && at < WORD && count < WORD
    ensures ReadSession(c, WriteWord(id) + (WriteWord(at) + (WriteWord(count) + b)))
         == match ReadPairs(c, b, count, map[])
            case Ok(rs, rest) => Ok(SessionV(id, FromWord(at), rs), rest)
            case Bad => Bad
            case Panics => Panics
  {
    WordRoundTrip(id, WriteWord(at) + (WriteWord(count) + b));
    WordRoundTrip(at, WriteWord(count) + b);
    WordRoundTrip(count, b);
  }

  lemma RestoredAll<R>(s: SessionV<R>, order: seq<nat>)
    requires Enumerates(order, s.results.Keys)
    ensures map[] + Restored(s.results, order) == NormalResults(s.results)
    ensures AllReadable(s.results, order) <==> ReadableSession(s)
    ensures |order| == |s.results|
  {
    EnumerationLength(order, s.results.Keys);
    assert forall k :: k in s.results ==> k in order;
  }

  lemma SessionBytes<R>(c: ResponseCodec<R>, s: SessionV<R>, order: seq<nat>, rest: seq<Byte>)
    requires WritableSession(s) && forall k :: k in order ==> k in s.results
    ensures WriteSession(c, s, order) + rest
         == WriteWord(s.id) + (WriteWord(AsWord(s.lastActive))
            + (WriteWord(|s.results|) + (WritePairs(c, s.results, order) + rest)))
  {
    var pairs := WritePairs(c, s.results, order);
    var id, at, count := WriteWord(s.id), WriteWord(AsWord(s.lastActive)), WriteWord(|s.results|);
    Assoc(id, at + (count + pairs), rest);
    Assoc3(at, count, pairs, rest);
  }

  /** Whatever order the results are written in, the session comes back with the same results. */
  lemma SessionRoundTrip<R(!new)>(c: ResponseCodec<R>, s: SessionV<R>, order: seq<nat>, rest: seq<Byte>)
    requires Faithful(c) && WritableSession(s) && Enumerates(order, s.results.Keys)
    ensures ReadSession(c, WriteSession(c, s, order) + rest)
         == if ReadableSession(s) then Ok(NormalSession(s), rest) else Panics
  {
    SessionBytes(c, s, order, rest);
    RestoredAll(s, order);
    PairsRoundTrip(c, s.results, order, map[], rest);
    HeaderRoundTrip(c, s.id, AsWord(s.lastActive), |s.results|, WritePairs(c, s.results, order) + rest);
  }

  /** `Session.Snapshot`: the range over the map visits the keys in any order. */
  method SaveSession<R>(c: ResponseCodec<R>, s: SessionV<R>) returns (b: seq<Byte>)
    requires -INT64_HALF <= s.lastActive < INT64_HALF
    ensures exists order :: Enumerates(order, s.results.Keys) && b == WriteSession(c, s, order)
  {
    var head := WriteWord(s.id) + (WriteWord(AsWord(s.lastActive)) + WriteWord(|s.results|));
    var pairs := [];
    ghost var order: seq<nat> := [];
    var todo := s.results.Keys;
    while todo != {}
      invariant todo <= s.results.Keys && Enumerates(order, s.results.Keys - todo)
      invariant pairs == WritePairs(c, s.results, order)
      decreases todo
    {
      var q :| q in todo;
      PairsSnoc(c, s.results, order, q);
      pairs := pairs + (WriteWord(q) + Marshal(c, s.results[q]));
      order := order + [q];
      todo := todo - {q};
    }
    assert Enumerates(order, s.results.Keys);
    b := head + pairs;
    Assoc3(WriteWord(s.id), WriteWord(AsWord(s.lastActive)), WriteWord(|s.results|), pairs);
  }

  lemma {:induction false} PairsSnoc<R>(c: ResponseCodec<R>, rs: Results<R>, order: seq<nat>, q: nat)
    requires q in rs && forall k :: k in order ==> k in rs
    ensures forall k :: k in order + [q] ==> k in rs
    ensures WritePairs(c, rs, order + [q]) == WritePairs(c, rs, order) + (WriteWord(q) + Marshal(c, rs[q]))
  {
    if order == [] {
      assert (order + [q])[1..] == [];
    } else {
      assert (order + [q])[1..] == order[1..] + [q] && (order + [q])[0] == order[0];
      PairsSnoc(c, rs, order[1..], q);
      Assoc3(WriteWord(order[0]), Marshal(c, rs[order[0]]), WritePairs(c, rs, order[1..]), WriteWord(q) + Marshal(c, rs[q]));
    }
  }

  lemma UnfoldPairs<R>(c: ResponseCodec<R>, b: seq<Byte>, count: nat, acc: Results<R>)
    requires count > 0
    ensures ReadPairs(c, b, count, acc)
         == match ReadWord(b)
            case Ok(q, b1) =>
              (match Unmarshal(c, b1)
               case Ok(ar, b2) => ReadPairs(c, b2, count - 1, acc[q := ar])
               case Bad => Bad
               case Panics => Panics)
            case _ => Bad
  {}

  /** The loop of `Session.Restore`. */
  method LoadPairs<R>(c: ResponseCodec<R>, b: seq<Byte>, count: nat) returns (r: Parsed<Results<R>>)
    ensures r == ReadPairs(c, b, count, map[])
  {
    var rest, rs: Results<R> := b, map[];
    var i := 0;
    while i < count
      invariant i <= count
      invariant ReadPairs(c, rest, count - i, rs) == ReadPairs(c, b, count, map[])
    {
      UnfoldPairs(c, rest, count - i, rs);
      var w := ReadWord(rest);
      if !w.Ok? { return Bad; }
      var ar := Unmarshal(c, w.rest);
      if ar.Bad? { return Bad; }
      if ar.Panics? { return Panics; }
      rs := rs[w.value := ar.value];
      rest := ar.rest;
      i := i + 1;
    }
    return Ok(rs, rest);
  }

  // ---------------------------------------------------------------------------
  // The managers
  // ---------------------------------------------------------------------------

  const FILE_VERSION := 1
  const EXPIRED_TYPE := 1
  const LRU_TYPE := 2
  const HALF_WORD := 0x1_0000_0000

  ghost predicate Orders<R>(list: seq<SessionV<R>>, orders: seq<seq<nat>>) {
    |list| == |orders| && forall i :: 0 <= i < |list| ==> WritableSession(list[i]) && Enumerates(orders[i], list[i].results.Keys)
  }

  function Flatten(blobs: seq<seq<Byte>>): seq<Byte> {
    if blobs == [] then [] else blobs[0] + Flatten(blobs[1..])
  }

  ghost function Blobs<R>(c: ResponseCodec<R>, list: seq<SessionV<R>>, orders: seq<seq<nat>>): (r: seq<seq<Byte>>)
    requires Orders(list, orders)
    ensures |r| == |list| && forall i :: 0 <= i < |r| ==> r[i] == WriteSession(c, list[i], orders[i])
  {
    seq(|list|, i requires 0 <= i < |list| => WriteSession(c, list[i], orders[i]))
  }

  ghost function WriteList<R>(c: ResponseCodec<R>, list: seq<SessionV<R>>, orders: seq<seq<nat>>): seq<Byte>
    requires Orders(list, orders)
  {
    Flatten(Blobs(c, list, orders))
  }

  function ReadList<R>(c: ResponseCodec<R>, b: seq<Byte>, count: nat): Parsed<seq<SessionV<R>>>
    decreases count
  {
    if count == 0 then Ok([], b)
    else match ReadSession(c, b)
      case Ok(s, b1) =>
        (match ReadList(c, b1, count - 1)
         case Ok(more, rest) => Ok([s] + more, rest)
         case Bad => Bad
         case Panics => Panics)
      case Bad => Bad
      case Panics => Panics
  }

  function NormalList<R>(list: seq<SessionV<R>>): (r: seq<SessionV<R>>)
    ensures |r| == |list| && forall i :: 0 <= i < |r| ==> r[i] == NormalSession(list[i])
  {
    seq(|list|, i requires 0 <= i < |list| => NormalSession(list[i]))
  }

  ghost predicate ReadableList<R>(list: seq<SessionV<R>>) {
    forall i :: 0 <= i < |list| ==> ReadableSession(list[i])
  }

  /** The bytes are read as the session, or make the reader panic if the session cannot be read back. */
  ghost predicate ReadsAs<R>(c: ResponseCodec<R>, blob: seq<Byte>, s: SessionV<R>) {
    forall rest :: ReadSession(c, blob + rest) == if ReadableSession(s) then Ok(NormalSession(s), rest) else Panics
  }

  lemma {:induction false} BlobsRoundTrip<R>(c: ResponseCodec<R>, list: seq<SessionV<R>>, blobs: seq<seq<Byte>>, rest: seq<Byte>)
    requires |list| == |blobs| && forall i :: 0 <= i < |list| ==> ReadsAs(c, blobs[i], list[i])
    ensures ReadList(c, Flatten(blobs) + rest, |list|)
         == if ReadableList(list) then Ok(NormalList(list), rest) else Panics
  {
    if list == [] {
      assert Flatten(blobs) + rest == rest;
      assert NormalList(list) == [];
    } else {
      assert ReadsAs(c, blobs[0], list[0]);
      Assoc(blobs[0], Flatten(blobs[1..]), rest);
      BlobsRoundTrip(c, list[1..], blobs[1..], rest);
      ReadableCons(list);
    }
  }

  lemma ListRoundTrip<R(!new)>(c: ResponseCodec<R>, list: seq<SessionV<R>>, orders: seq<seq<nat>>, rest: seq<Byte>)
    requires Faithful(c) && Orders(list, orders)
    ensures ReadList(c, WriteList(c, list, orders) + rest, |list|)
         == if ReadableList(list) then Ok(NormalList(list), rest) else Panics
  {
    var blobs := Blobs(c, list, orders);
    forall i | 0 <= i < |list|
      ensures ReadsAs(c, blobs[i], list[i])
    {
      forall more
        ensures ReadSession(c, blobs[i] + more) == if ReadableSession(list[i]) then Ok(NormalSession(list[i]), more) else Panics
      {
        SessionRoundTrip(c, list[i], orders[i], more);
      }
    }
    BlobsRoundTrip(c, list, blobs, rest);
  }

  lemma ReadableCons<R>(list: seq<SessionV<R>>)
    requires list != []
    ensures ReadableList(list) <==> ReadableSession(list[0]) && ReadableList(list[1..])
    ensures NormalList(list) == [NormalSession(list[0])] + NormalList(list[1..])
  {
    if ReadableSession(list[0]) && ReadableList(list[1..]) {
      forall i | 0 <= i < |list|
        ensures ReadableSession(list[i])
      {
        if i > 0 { assert list[i] == list[1..][i - 1]; }
      }
    }
  }

  ghost function WriteFile<R>(c: ResponseCodec<R>, fileType: nat, list: seq<SessionV<R>>, orders: seq<seq<nat>>): seq<Byte>
    requires Orders(list, orders)
  {
    WriteWord(FILE_VERSION * HALF_WORD + fileType) + (WriteWord(|list|) + WriteList(c, list, orders))
  }

  function ReadFile<R>(c: ResponseCodec<R>, fileType: nat, b: seq<Byte>): Parsed<seq<SessionV<R>>> {
    match ReadWord(b)
    case Ok(v, b1) =>
      if v / HALF_WORD != FILE_VERSION || v % HALF_WORD != fileType then Bad
      else (match ReadWord(b1)
            case Ok(count, b2) => ReadList(c, b2, count)
            case _ => Bad)
    case _ => Bad
  }

  lemma FileHeader<R>(c: ResponseCodec<R>, fileType: nat, count: nat, b: seq<Byte>)
    requires fileType < HALF_WORD && count < WORD
    ensures ReadFile(c, fileType, WriteWord(FILE_VERSION * HALF_WORD + fileType) + (WriteWord(count) + b))
         == ReadList(c, b, count)
  {
    WordRoundTrip(FILE_VERSION * HALF_WORD + fileType, WriteWord(count) + b);
    WordRoundTrip(count, b);
  }

  lemma FileRoundTrip<R(!new)>(c: ResponseCodec<R>, fileType: nat, list: seq<SessionV<R>>, orders: seq<seq<nat>>)
    requires Faithful(c) && Orders(list, orders) && |list| < WORD && fileType < HALF_WORD
    ensures ReadFile(c, fileType, WriteFile(c, fileType, list, orders))
         == if ReadableList(list) then Ok(NormalList(list), []) else Panics
  {
    var body := WriteList(c, list, orders);
    assert body + [] == body;
    FileHeader(c, fileType, |list|, body);
    ListRoundTrip(c, list, orders, []);
  }

  /** The loop of `ExpiredManager.Restore`: later sessions replace earlier ones of the same id. */
  function TableOf<R>(list: seq<SessionV<R>>): map<nat, SessionV<R>> {
    if list == [] then map[] else TableOf(list[..|list| - 1])[list[|list| - 1].id := list[|list| - 1]]
  }

  function RestoreLru<R>(c: ResponseCodec<R>, max: int, b: seq<Byte>): Parsed<Manager<R>> {
    match ReadFile(c, LRU_TYPE, b)
    case Ok(list, rest) => Ok(Lru(max, list), rest)
    case Bad => Bad
    case Panics => Panics
  }

  function RestoreExpired<R>(c: ResponseCodec<R>, ttl: int, b: seq<Byte>): Parsed<Manager<R>> {
    match ReadFile(c, EXPIRED_TYPE, b)
    case Ok(list, rest) => if |TableOf(list)| == |list| then Ok(Expired(ttl, TableOf(list)), rest) else Bad
    case Bad => Bad
    case Panics => Panics
  }

  function NormalTable<R>(table: map<nat, SessionV<R>>): map<nat, SessionV<R>> {
    map id | id in table :: NormalSession(table[id])
  }

  function NormalManager<R>(m: Manager<R>): Manager<R> {
    match m
    case Lru(max, order) => Lru(max, NormalList(order))
    case Expired(ttl, table) => Expired(ttl, NormalTable(table))
  }

  /** Restoring a saved LRU manager gives the same sessions in the same order of use. */
  lemma LruRestored<R(!new)>(c: ResponseCodec<R>, m: Manager<R>, orders: seq<seq<nat>>)
    requires Faithful(c) && m.Lru? && Orders(m.order, orders) && |m.order| < WORD
    ensures RestoreLru(c, m.maxSessions, WriteFile(c, LRU_TYPE, m.order, orders))
         == if ReadableList(m.order) then Ok(NormalManager(m), []) else Panics
  {
    FileRoundTrip(c, LRU_TYPE, m.order, orders);
  }

  /** The sessions of a table, visited in the order `ids`. */
  function Visit<R>(table: map<nat, SessionV<R>>, ids: seq<nat>): (r: seq<SessionV<R>>)
    requires forall id :: id in ids ==> id in table
    ensures |r| == |ids| && forall i :: 0 <= i < |r| ==> r[i] == table[ids[i]]
  {
    seq(|ids|, i requires 0 <= i < |ids| => table[ids[i]])
  }

  lemma {:induction false} TableOfVisit<R>(table: map<nat, SessionV<R>>, ids: seq<nat>)
    requires (forall id :: id in ids ==> id in table) && forall id :: id in table ==> table[id].id == id
    ensures TableOf(NormalList(Visit(table, ids))) == map id | id in ids :: NormalSession(table[id])
  {
    if ids == [] {
    } else {
      var n := |ids| - 1;
      var list := NormalList(Visit(table, ids));
      assert ids == ids[..n] + [ids[n]];
      assert list[..n] == NormalList(Visit(table, ids[..n]));
      TableOfVisit(table, ids[..n]);
    }
  }

  ghost predicate ReadableTable<R>(table: map<nat, SessionV<R>>) {
    forall id :: id in table ==> ReadableSession(table[id])
  }

  lemma ReadableVisit<R>(table: map<nat, SessionV<R>>, ids: seq<nat>)
    requires Enumerates(ids, table.Keys)
    ensures ReadableList(Visit(table, ids)) <==> ReadableTable(table)
  {
    var list := Visit(table, ids);
    if ReadableList(list) {
      forall id | id in table
        ensures ReadableSession(table[id])
      {
        var i :| 0 <= i < |ids| && ids[i] == id;
        assert ReadableSession(list[i]);
      }
    }
  }

  lemma TableRestored<R>(table: map<nat, SessionV<R>>, ids: seq<nat>)
    requires Enumerates(ids, table.Keys) && forall id :: id in table ==> table[id].id == id
    ensures TableOf(NormalList(Visit(table, ids))) == NormalTable(table) && |NormalTable(table)| == |ids|
  {
    EnumerationLength(ids, table.Keys);
    TableOfVisit(table, ids);
    assert (map id | id in ids :: NormalSession(table[id])) == NormalTable(table);
    assert NormalTable(table).Keys == table.Keys;
  }

  /** Restoring a saved expiring manager gives the same sessions, whatever order they were visited in. */
  lemma ExpiredRestored<R(!new)>(c: ResponseCodec<R>, m: Manager<R>, ids: seq<nat>, orders: seq<seq<nat>>)
    requires Faithful(c) && m.Expired? && IdsMatch(m) && Enumerates(ids, m.table.Keys) && |ids| < WORD
    requires Orders(Visit(m.table, ids), orders)
    ensures RestoreExpired(c, m.ttl, WriteFile(c, EXPIRED_TYPE, Visit(m.table, ids), orders))
         == if ReadableTable(m.table) then Ok(NormalManager(m), []) else Panics
  {
    FileRoundTrip(c, EXPIRED_TYPE, Visit(m.table, ids), orders);
    TableRestored(m.table, ids);
    ReadableVisit(m.table, ids);
  }

  // ---------------------------------------------------------------------------
  // The layout, byte by byte
  // ---------------------------------------------------------------------------

  /** Eight bytes as a number, the lowest first. */
  function WordAt(b: seq<Byte>, i: nat): nat
    requires i + 8 <= |b|
  {
    b[i] + 0x100 * (b[i + 1] as int) + 0x1_0000 * (b[i + 2] as int) + 0x100_0000 * (b[i + 3] as int)
    + 0x1_0000_0000 * (b[i + 4] as int) + 0x100_0000_0000 * (b[i + 5] as int)
    + 0x1_0000_0000_0000 * (b[i + 6] as int) + 0x100_0000_0000_0000 * (b[i + 7] as int)
  }

  lemma FromEight(b: seq<Byte>)
    requires |b| == 8
    ensures FromLittleEndian(b) == WordAt(b, 0)
  {
    assert FromLittleEndian(b[4..]) == b[4] + 0x100 * (b[5] as int) + 0x1_0000 * (b[6] as int) + 0x100_0000 * (b[7] as int) by {
      FromFour(b[4..]);
    }
    assert b[1..][1..] == b[2..] && b[2..][1..] == b[3..] && b[3..][1..] == b[4..];
    assert FromLittleEndian(b[3..]) == b[3] + 0x100 * FromLittleEndian(b[4..]);
    assert FromLittleEndian(b[2..]) == b[2] + 0x100 * FromLittleEndian(b[3..]);
    assert FromLittleEndian(b[1..]) == b[1] + 0x100 * FromLittleEndian(b[2..]);
  }

  lemma FromFour(b: seq<Byte>)
    requires |b| == 4
    ensures FromLittleEndian(b) == b[0] + 0x100 * (b[1] as int) + 0x1_0000 * (b[2] as int) + 0x100_0000 * (b[3] as int)
  {
    assert b[1..][1..] == b[2..] && b[2..][1..] == b[3..] && b[3..][1..] == [];
    assert FromLittleEndian(b[3..]) == b[3];
    assert FromLittleEndian(b[2..]) == b[2] + 0x100 * FromLittleEndian(b[3..]);
    assert FromLittleEndian(b[1..]) == b[1] + 0x100 * FromLittleEndian(b[2..]);
  }

  /** A word is eight bytes, the lowest first. */
  lemma WordLayout(v: nat, rest: seq<Byte>)
    requires v < WORD
    ensures |WriteWord(v)| == 8 && WordAt(WriteWord(v) + rest, 0) == v && (WriteWord(v) + rest)[8..] == rest
  {
    WordRoundTrip(v, rest);
    FromEight((WriteWord(v) + rest)[..8]);
  }

  /** A result: its log index, the kind 1, 2 or 3, and then the response, the length and text of the error, or nothing. */
  lemma ResultLayout<R>(c: ResponseCodec<R>, ar: ApplyResult<R>)
    requires Writable(ar)
    ensures var b := Marshal(c, ar);
            && |b| >= 16 && WordAt(b, 0) == ar.logIndex
            && WordAt(b[8..], 0) == (if ar.error.Some? then 2 else if ar.response.Some? then 1 else 3)
            && (ar.error.Some? ==> |b| >= 24 && WordAt(b[16..], 0) == |ar.error.value| && b[24..] == ar.error.value)
            && (ar.error.None? && ar.response.Some? ==> b[16..] == c.ser(ar.response.value))
            && (ar.error.None? && ar.response.None? ==> |b| == 16)
  {
    var b := Marshal(c, ar);
    WordLayout(ar.logIndex, b[8..]);
    assert b == WriteWord(ar.logIndex) + b[8..];
    if ar.error.Some? {
      var text := ar.error.value;
      WordLayout(RESPONSE_ERR, WriteWord(|text|) + text);
      WordLayout(|text|, text);
      assert b[8..] == WriteWord(RESPONSE_ERR) + (WriteWord(|text|) + text);
      assert b[16..] == b[8..][8..] && b[24..] == b[16..][8..];
    } else if ar.response.Some? {
      WordLayout(RESPONSE, c.ser(ar.response.value));
      assert b[8..] == WriteWord(RESPONSE) + c.ser(ar.response.value) && b[16..] == b[8..][8..];
    } else {
      WordLayout(RESPONSE_NIL, []);
      assert b[8..] == WriteWord(RESPONSE_NIL) + [];
    }
  }

  /** A session: its id, its time as a 64-bit word, the number of its results, and then each number with its result. */
  lemma SessionLayout<R>(c: ResponseCodec<R>, s: SessionV<R>, order: seq<nat>)
    requires s.id < WORD && |s.results| < WORD && -INT64_HALF <= s.lastActive < INT64_HALF
    requires forall k :: k in order ==> k in s.results && k < WORD
    ensures var b := WriteSession(c, s, order);
            && |b| >= 24 && WordAt(b, 0) == s.id
            && WordAt(b[8..], 0) == (if s.lastActive < 0 then s.lastActive + 0x1_0000_0000_0000_0000 else s.lastActive)
            && WordAt(b[16..], 0) == |s.results|
            && b[24..] == WritePairs(c, s.results, order)
    ensures order != [] ==>
              var p := WritePairs(c, s.results, order);
              && |p| >= 8 && WordAt(p, 0) == order[0]
              && p[8..] == Marshal(c, s.results[order[0]]) + WritePairs(c, s.results, order[1..])
    ensures order == [] ==> WritePairs(c, s.results, order) == []
  {
    var b, pairs := WriteSession(c, s, order), WritePairs(c, s.results, order);
    var at, count := WriteWord(AsWord(s.lastActive)), WriteWord(|s.results|);
    WordLayout(s.id, at + (count + pairs));
    WordLayout(AsWord(s.lastActive), count + pairs);
    WordLayout(|s.results|, pairs);
    assert b[8..] == at + (count + pairs) && b[16..] == b[8..][8..] && b[24..] == b[16..][8..];
    if order != [] { WordLayout(order[0], Marshal(c, s.results[order[0]]) + WritePairs(c, s.results, order[1..])); }
  }

  /** A file: the version in the upper and the kind of the manager in the lower half of the first word, then the number of
      sessions, then the sessions. */
  lemma FileLayout<R>(c: ResponseCodec<R>, fileType: nat, list: seq<SessionV<R>>, orders: seq<seq<nat>>)
    requires Orders(list, orders) && |list| < WORD && fileType < HALF_WORD
    ensures var b := WriteFile(c, fileType, list, orders);
            && |b| >= 16 && WordAt(b, 0) == FILE_VERSION * 0x1_0000_0000 + fileType
            && WordAt(b[8..], 0) == |list| && b[16..] == WriteList(c, list, orders)
  {
    var b, body := WriteFile(c, fileType, list, orders), WriteList(c, list, orders);
    WordLayout(FILE_VERSION * HALF_WORD + fileType, WriteWord(|list|) + body);
    WordLayout(|list|, body);
    assert b[8..] == WriteWord(|list|) + body && b[16..] == b[8..][8..];
  }

  /** A file of another version, or of the other manager, is refused. */
  lemma OtherFileIsRefused<R>(c: ResponseCodec<R>, fileType: nat, b: seq<Byte>)
    requires |b| >= 8 && fileType < HALF_WORD && WordAt(b, 0) != FILE_VERSION * 0x1_0000_0000 + fileType
    ensures ReadFile(c, fileType, b) == Bad
  {
    FromEight(b[..8]);
    var v := WordAt(b, 0);
    assert v == v / HALF_WORD * HALF_WORD + v % HALF_WORD;
  }
}
