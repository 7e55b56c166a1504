/**
 Sending the files of a snapshot to another replica in chunks.

 The sender cuts a file into chunks with ids 1, 2, ... and a running checksum. The receiver keeps one
 validator per file tag. `update` stands for `crc32.Update`; nothing is assumed about it.
 */
module SnapshotTransfer {
  import opened Common

  type Crc = nat
  type Update = (Crc, seq<Byte>) -> Crc
  type Tag = string

  datatype FileType = Cluster | Session | StateMachine | Metadata | Unknown
  datatype Path = ClusterFile | SessionFile | StateMachineFile(tag: Tag) | MetadataFile

  function FileName(t: FileType, tag: Tag): Option<Path> {
    match t
    case StateMachine => Some(StateMachineFile(tag))
    case Cluster => Some(ClusterFile)
    case Session => Some(SessionFile)
    case Metadata => Some(MetadataFile)
    case Unknown => None
  }

  /** Files of different kinds are kept under different names, and so are the files of a state machine under its tags. */
  lemma NamesAreTheirOwn(t: FileType, tag: Tag, t': FileType, tag': Tag)
    ensures FileName(t, tag).None? <==> t == Unknown
    ensures FileName(t, tag).Some? && FileName(t, tag) == FileName(t', tag') ==> t == t' && (t == StateMachine ==> tag == tag')
    ensures t != StateMachine ==> FileName(t, tag) == FileName(t, tag')
  {
  }

  datatype Chunk = Chunk(fileType: FileType, tag: Tag, id: nat, data: seq<Byte>, last: bool, crc: Crc)
  datatype File = File(bytes: seq<Byte>, finalized: nat)

  // ---------------------------------------------------------------- the receiver as a value

  datatype Validation = Validation(path: Path, next: nat, crc: Crc, finish: bool)
  datatype Receiving = Receiving(index: nat, validators: map<Tag, Validation>, files: map<Path, File>)

  function Content(files: map<Path, File>, p: Path): File {
    if p in files then files[p] else File([], 0)
  }

  function Appended(files: map<Path, File>, p: Path, data: seq<Byte>, last: bool): map<Path, File> {
    var f := Content(files, p);
    files[p := File(f.bytes + data, f.finalized + if last then 1 else 0)]
  }

  predicate Fits(update: Update, v: Validation, m: Chunk) {
    !v.finish && v.next == m.id && update(v.crc, m.data) == m.crc
  }

  function Validated(update: Update, v: Validation, m: Chunk): Validation {
    if v.finish || v.next != m.id then v
    else if update(v.crc, m.data) != m.crc then v.(crc := update(v.crc, m.data))
    else v.(crc := m.crc, next := if m.last then v.next else v.next + 1, finish := m.last)
  }

  function Current(r: Receiving, m: Chunk): Option<Validation> {
    if m.tag in r.validators then Some(r.validators[m.tag])
    else match FileName(m.fileType, m.tag)
         case None => None
         case Some(p) => Some(Validation(p, 1, 0, false))
  }

  predicate Saves(update: Update, r: Receiving, index: nat, m: Chunk) {
    r.index == index && Current(r, m).Some? && Fits(update, Current(r, m).value, m)
  }

  /** The receiver after one chunk, saved or not. */
  function Saved(update: Update, r: Receiving, index: nat, m: Chunk): Receiving {
    if r.index != index then r
    else match Current(r, m)
         case None => r
         case Some(v) =>
           if !Fits(update, v, m) then r.(validators := r.validators[m.tag := Validated(update, v, m)])
           else Receiving(r.index,
                          if m.last then r.validators - {m.tag} else r.validators[m.tag := Validated(update, v, m)],
                          Appended(r.files, v.path, m.data, m.last))
  }

  /** A chunk message with the checksum zero does not get to the receiver. */
  predicate Accepts(update: Update, r: Receiving, index: nat, m: Chunk) {
    m.crc != 0 && Saves(update, r, index, m)
  }

  /** The state after one chunk message, accepted or not. */
  function Processed(update: Update, r: Receiving, index: nat, m: Chunk): Receiving {
    if m.crc == 0 then r else Saved(update, r, index, m)
  }

  // ---------------------------------------------------------------- the sender

  function Min(a: nat, b: nat): nat { if a <= b then a else b }

  /** What the sender still has to do: the unread bytes and the fields its loop carries. */
  datatype Sending = Sending(fileType: FileType, tag: Tag, size: int, chunkSize: nat,
                             rest: seq<Byte>, id: nat, crc: Crc, written: nat)

  function Begin(t: FileType, tag: Tag, size: int, chunkSize: nat, content: seq<Byte>): Sending {
    Sending(t, tag, size, chunkSize, content, 0, 0, 0)
  }

  function Next(update: Update, s: Sending): Chunk
    requires s.rest != [] && s.chunkSize > 0
  {
    var data := s.rest[..Min(s.chunkSize, |s.rest|)];
    Chunk(s.fileType, s.tag, s.id + 1, data, s.size == s.written + |data|, update(s.crc, data))
  }

  function Advance(update: Update, s: Sending): Sending
    requires s.rest != [] && s.chunkSize > 0
  {
    var m := Next(update, s);
    s.(rest := s.rest[|m.data|..], id := m.id, crc := m.crc, written := s.written + |m.data|)
  }

  /** The rest of the transfer of one file: the receiver afterwards, and whether the sender returns nil. */
  function Transfer(update: Update, r: Receiving, index: nat, s: Sending): (Receiving, bool)
    requires s.chunkSize > 0
    decreases |s.rest|
  {
    if s.rest == [] then (r, s.size == s.written)
    else
      var m := Next(update, s);
      if !Accepts(update, r, index, m) then (Processed(update, r, index, m), false)
      else if |m.data| < s.chunkSize then (Processed(update, r, index, m), s.size == s.written + |m.data|)
      else Transfer(update, Processed(update, r, index, m), index, Advance(update, s))
  }

  /** The chunks of a file that is sent to its end. */
  function Sent(update: Update, s: Sending): seq<Chunk>
    requires s.chunkSize > 0
    decreases |s.rest|
  {
    if s.rest == [] then [] else [Next(update, s)] + Sent(update, Advance(update, s))
  }

  function Joined(ms: seq<Chunk>): seq<Byte> {
    if ms == [] then [] else ms[0].data + Joined(ms[1..])
  }

  function Running(update: Update, crc: Crc, ms: seq<Chunk>): Crc
    decreases |ms|
  {
    if ms == [] then crc else Running(update, update(crc, ms[0].data), ms[1..])
  }

  /** The chunks hold the file in order. */
  lemma {:induction false} SentIsWhole(update: Update, s: Sending)
    requires s.chunkSize > 0
    ensures Joined(Sent(update, s)) == s.rest
    decreases |s.rest|
  {
    if s.rest != [] {
      SentIsWhole(update, Advance(update, s));
      assert Sent(update, s)[1..] == Sent(update, Advance(update, s));
    }
  }

  /**
   The chunk k: its number, its size, which is the chunk size except at the end of the file, the checksum of all
   bytes up to its end, and the mark of the last one, which it carries exactly if the declared size is reached.
   */
  lemma {:induction false} SentAt(update: Update, s: Sending, k: nat)
    requires s.chunkSize > 0 && k < |Sent(update, s)|
    ensures var ms := Sent(update, s); var m := ms[k];
            && m.fileType == s.fileType && m.tag == s.tag && m.id == s.id + k + 1
            && m.crc == Running(update, s.crc, ms[..k + 1])
            && (m.last <==> s.size == s.written + |Joined(ms[..k + 1])|)
            && (k + 1 < |ms| ==> |m.data| == s.chunkSize) && 0 < |m.data| <= s.chunkSize
    decreases k
  {
    var ms, s' := Sent(update, s), Advance(update, s);
    assert ms[1..] == Sent(update, s');
    assert ms[..k + 1][0] == ms[0] && ms[..k + 1][1..] == ms[1..][..k];
    if k > 0 { SentAt(update, s', k - 1); }
  }

  /** No chunk of the file has the running checksum zero, which the receiving side takes for a missing one. */
  predicate Checkable(update: Update, s: Sending)
    requires s.chunkSize > 0
    decreases |s.rest|
  {
    s.rest == [] || (Next(update, s).crc != 0 && Checkable(update, Advance(update, s)))
  }

  /** The receiver is where a sender that has sent `s.id` chunks, and has not sent the last, expects it. */
  predicate InStep(r: Receiving, s: Sending, p: Path) {
    && FileName(s.fileType, s.tag) == Some(p)
    && if s.id == 0 then s.tag !in r.validators && s.crc == 0
       else s.tag in r.validators && r.validators[s.tag] == Validation(p, s.id + 1, s.crc, false)
  }

  /** From an expected state the rest is taken to the end exactly if the declared size is the real one. */
  lemma {:induction false} RestArrives(update: Update, r: Receiving, index: nat, s: Sending, p: Path)
    requires s.chunkSize > 0 && r.index == index && InStep(r, s, p) && (s.id > 0 ==> s.size != s.written)
    ensures var (r', ok) := Transfer(update, r, index, s);
            && (ok <==> s.size == s.written + |s.rest| && Checkable(update, s))
            && (ok ==> r' == if s.id == 0 && s.rest == [] then r else
                               Receiving(r.index, r.validators - {s.tag}, Appended(r.files, p, s.rest, true)))
    decreases |s.rest|
  {
    if s.rest != [] {
      var m := Next(update, s);
      if m.crc != 0 {
        if m.last {
          LastTaken(update, r, index, s, p);
        } else {
          NotLastTaken(update, r, index, s, p);
          RestArrives(update, Processed(update, r, index, m), index, Advance(update, s), p);
        }
      }
    }
  }

  lemma LastTaken(update: Update, r: Receiving, index: nat, s: Sending, p: Path)
    requires s.chunkSize > 0 && r.index == index && InStep(r, s, p) && s.rest != []
    requires Next(update, s).last && Next(update, s).crc != 0
    ensures var (r', ok) := Transfer(update, r, index, s);
            && (ok <==> s.size == s.written + |s.rest| && Checkable(update, s))
            && (ok ==> r' == Receiving(r.index, r.validators - {s.tag}, Appended(r.files, p, s.rest, true)))
  {
    var m, s' := Next(update, s), Advance(update, s);
    var r' := Processed(update, r, index, m);
    assert s'.rest != [] ==> !Accepts(update, r', index, Next(update, s'));
    assert s'.rest == [] ==> m.data == s.rest;
  }

  lemma NotLastTaken(update: Update, r: Receiving, index: nat, s: Sending, p: Path)
    requires s.chunkSize > 0 && r.index == index && InStep(r, s, p) && s.rest != []
    requires !Next(update, s).last && Next(update, s).crc != 0
    ensures var m, s' := Next(update, s), Advance(update, s);
            var r' := Processed(update, r, index, m);
            && InStep(r', s', p) && r'.index == index
            && Transfer(update, r, index, s) == Transfer(update, r', index, s')
            && r'.validators - {s.tag} == r.validators - {s.tag}
            && Appended(r'.files, p, s'.rest, true) == Appended(r.files, p, s.rest, true)
  {
    var m, s' := Next(update, s), Advance(update, s);
    assert m.data + s'.rest == s.rest;
    Assoc(Content(r.files, p).bytes, m.data, s'.rest);
  }

  /**
   One file, from its first chunk: the sender returns nil exactly if the declared size is the length of the
   file and no running checksum is zero; then the file has arrived, once, and is finalized once. An empty
   file leaves no trace at the receiver.
   */
  lemma FileArrives(update: Update, r: Receiving, index: nat, t: FileType, tag: Tag, size: int, chunkSize: nat,
                    content: seq<Byte>, p: Path)
    requires chunkSize > 0 && r.index == index && FileName(t, tag) == Some(p)
    requires tag !in r.validators && p !in r.files
    ensures var s := Begin(t, tag, size, chunkSize, content);
            var (r', ok) := Transfer(update, r, index, s);
            && (ok <==> size == |content| && Checkable(update, s))
            && (ok && content != [] ==> r' == r.(files := r.files[p := File(content, 1)]))
            && (content == [] ==> r' == r)
  {
    var s := Begin(t, tag, size, chunkSize, content);
    RestArrives(update, r, index, s, p);
    assert r.validators - {tag} == r.validators && [] + content == content;
  }

  /**
   A chunk of the file that is due, whoever made it, is taken exactly if it has the next number and its checksum
   is that of all bytes so far and its own: so an altered chunk is taken only if its checksum agrees.
   */
  lemma ChunkTakenIff(update: Update, r: Receiving, index: nat, s: Sending, p: Path, at: nat, m: Chunk)
    requires r.index == index && InStep(r, s, p) && m.tag == s.tag && m.fileType == s.fileType
    ensures Accepts(update, r, at, m) <==> at == index && m.crc != 0 && m.id == s.id + 1 && m.crc == update(s.crc, m.data)
    ensures Accepts(update, r, at, m) ==>
              Content(Processed(update, r, at, m).files, p).bytes == Content(r.files, p).bytes + m.data
    ensures !Accepts(update, r, at, m) ==> Processed(update, r, at, m).files == r.files
  {
  }

  /**
   After a refused chunk the sender's own is still taken, unless the refused one had the next number, a checksum and
   the right index: then its bytes stay in the running checksum, and the own chunk is taken only if it agrees even so.
   */
  lemma TakenAfterRefused(update: Update, r: Receiving, index: nat, s: Sending, p: Path, at: nat, m: Chunk)
    requires r.index == index && InStep(r, s, p) && m.tag == s.tag && m.fileType == s.fileType
    requires s.rest != [] && s.chunkSize > 0 && Next(update, s).crc != 0 && !Accepts(update, r, at, m)
    ensures var own := Next(update, s);
            Accepts(update, Processed(update, r, at, m), index, own) <==>
            (at == index && m.crc != 0 && m.id == own.id ==> update(update(s.crc, m.data), own.data) == own.crc)
  {
  }

  // ---------------------------------------------------------------- what a receiver can have accepted

  datatype Record = Record(path: Path, chunk: Chunk)
  datatype Message = Message(index: nat, chunk: Chunk)

  function Fresh(index: nat): Receiving { Receiving(index, map[], map[]) }

  function Run(update: Update, r: Receiving, ms: seq<Message>): Receiving {
    if ms == [] then r
    else
      var m := ms[|ms| - 1];
      Processed(update, Run(update, r, ms[..|ms| - 1]), m.index, m.chunk)
  }

  /** The accepted chunks of a run, each with the file it was appended to. */
  function Accepted(update: Update, r: Receiving, ms: seq<Message>): seq<Record> {
    if ms == [] then []
    else
      var m, before := ms[|ms| - 1], Run(update, r, ms[..|ms| - 1]);
      Accepted(update, r, ms[..|ms| - 1]) +
      if Accepts(update, before, m.index, m.chunk) then [Record(Current(before, m.chunk).value.path, m.chunk)] else []
  }

  /** The chunks of a tag since its last final chunk. */
  function Unfinished(records: seq<Record>, tag: Tag): seq<Record> {
    if records == [] then []
    else
      var last, front := records[|records| - 1], records[..|records| - 1];
      if last.chunk.tag != tag then Unfinished(front, tag)
      else if last.chunk.last then []
      else Unfinished(front, tag) + [last]
  }

  function Written(records: seq<Record>, p: Path): File {
    if records == [] then File([], 0)
    else
      var last, front := records[|records| - 1], Written(records[..|records| - 1], p);
      if last.path != p then front
      else File(front.bytes + last.chunk.data, front.finalized + if last.chunk.last then 1 else 0)
  }

  /** The chunks that follow a final chunk of their tag count up from 1 without a gap, and go to one file. */
  ghost predicate Numbered(u: seq<Record>) {
    forall i :: 0 <= i < |u| ==> u[i].chunk.id == i + 1 && u[i].path == u[0].path
  }

  ghost predicate TagFaithful(r: Receiving, records: seq<Record>, tag: Tag) {
    var u := Unfinished(records, tag);
    && Numbered(u)
    && if tag in r.validators
       then var v := r.validators[tag]; !v.finish && v.next == |u| + 1 && (u != [] ==> u[0].path == v.path)
       else u == []
  }

  ghost predicate Faithful(r: Receiving, records: seq<Record>) {
    && (forall p :: Content(r.files, p) == Written(records, p))
    && (forall tag :: TagFaithful(r, records, tag))
  }

  lemma UnfinishedAppended(records: seq<Record>, rec: Record, tag: Tag)
    ensures Unfinished(records + [rec], tag)
            == if rec.chunk.tag != tag then Unfinished(records, tag)
               else if rec.chunk.last then []
               else Unfinished(records, tag) + [rec]
  {
    assert (records + [rec])[..|records|] == records;
  }

  /** What an accepted chunk does to the validator of its tag, and to the others. */
  lemma AcceptedValidators(update: Update, r: Receiving, m: Message, tag: Tag)
    requires Accepts(update, r, m.index, m.chunk)
    ensures var r', v := Processed(update, r, m.index, m.chunk), Current(r, m.chunk).value;
            && !v.finish && v.next == m.chunk.id
            && if m.chunk.tag != tag then (tag in r'.validators <==> tag in r.validators)
                                          && (tag in r.validators ==> r'.validators[tag] == r.validators[tag])
               else if m.chunk.last then tag !in r'.validators
               else tag in r'.validators && r'.validators[tag] == v.(crc := m.chunk.crc, next := v.next + 1)
  {
  }

  lemma AcceptedTag(update: Update, r: Receiving, records: seq<Record>, m: Message, tag: Tag)
    requires TagFaithful(r, records, tag) && Accepts(update, r, m.index, m.chunk)
    ensures TagFaithful(Processed(update, r, m.index, m.chunk),
                        records + [Record(Current(r, m.chunk).value.path, m.chunk)], tag)
    ensures tag == m.chunk.tag ==> m.chunk.id == |Unfinished(records, tag)| + 1
  {
    UnfinishedAppended(records, Record(Current(r, m.chunk).value.path, m.chunk), tag);
    AcceptedValidators(update, r, m, tag);
  }

  lemma AcceptedFile(update: Update, r: Receiving, records: seq<Record>, m: Message, p: Path)
    requires Content(r.files, p) == Written(records, p) && Accepts(update, r, m.index, m.chunk)
    ensures Content(Processed(update, r, m.index, m.chunk).files, p)
            == Written(records + [Record(Current(r, m.chunk).value.path, m.chunk)], p)
  {
    var records' := records + [Record(Current(r, m.chunk).value.path, m.chunk)];
    assert records'[..|records'| - 1] == records;
  }

  lemma RejectedTag(update: Update, r: Receiving, records: seq<Record>, m: Message, tag: Tag)
    requires TagFaithful(r, records, tag) && !Accepts(update, r, m.index, m.chunk)
    ensures TagFaithful(Processed(update, r, m.index, m.chunk), records, tag)
  {
  }

  lemma ProcessedFaithful(update: Update, r: Receiving, records: seq<Record>, m: Message)
    requires Faithful(r, records)
    ensures var r' := Processed(update, r, m.index, m.chunk);
            if Accepts(update, r, m.index, m.chunk)
            then Faithful(r', records + [Record(Current(r, m.chunk).value.path, m.chunk)])
                 && m.chunk.id == |Unfinished(records, m.chunk.tag)| + 1
            else Faithful(r', records)
  {
    if Accepts(update, r, m.index, m.chunk) {
      forall tag { AcceptedTag(update, r, records, m, tag); }
      forall p { AcceptedFile(update, r, records, m, p); }
    } else {
      forall tag { RejectedTag(update, r, records, m, tag); }
    }
  }

  ghost predicate InOrder(records: seq<Record>) {
    forall i :: 0 <= i < |records| ==> records[i].chunk.id == |Unfinished(records[..i], records[i].chunk.tag)| + 1
  }

  lemma InOrderAppended(records: seq<Record>, rec: Record)
    requires InOrder(records) && rec.chunk.id == |Unfinished(records, rec.chunk.tag)| + 1
    ensures InOrder(records + [rec])
  {
    var all := records + [rec];
    forall i | 0 <= i < |all|
      ensures all[i].chunk.id == |Unfinished(all[..i], all[i].chunk.tag)| + 1
    {
      assert all[..i] == records[..i];
      assert records[..|records|] == records;
    }
  }

  /**
   Every run of a receiver, whatever is sent to it: each file is the concatenation of the accepted chunks
   that went to it, finalized once per final chunk; the accepted chunks of a tag are numbered 1, 2, ... up to
   each final one; and a validator that has finished is never asked again.
   */
  lemma {:induction false} AcceptedRuns(update: Update, index: nat, ms: seq<Message>)
    ensures Faithful(Run(update, Fresh(index), ms), Accepted(update, Fresh(index), ms))
    ensures InOrder(Accepted(update, Fresh(index), ms))
  {
    if ms == [] {
    } else {
      var front, m := ms[..|ms| - 1], ms[|ms| - 1];
      AcceptedRuns(update, index, front);
      var r, before := Run(update, Fresh(index), front), Accepted(update, Fresh(index), front);
      ProcessedFaithful(update, r, before, m);
      if Accepts(update, r, m.index, m.chunk) {
        InOrderAppended(before, Record(Current(r, m.chunk).value.path, m.chunk));
      } else {
        assert before + [] == before;
      }
    }
  }

  // ---------------------------------------------------------------- a whole snapshot

  /** The entry of the snapshot's metadata for one file, with its declared size and checksum. */
  datatype Desc = Desc(fileType: FileType, tag: Tag, size: int, crc: Crc, external: bool)

  type Sum = seq<Byte> -> Crc

  predicate Names(d: Desc, p: Path) { !d.external && FileName(d.fileType, d.tag) == Some(p) }

  /** Every listed file in turn, leaving out the external ones; the sender stops at the first failure. */
  function TransferAll(update: Update, r: Receiving, index: nat, chunkSize: nat, source: map<Path, seq<Byte>>,
                       ds: seq<Desc>): (Receiving, bool)
    requires chunkSize > 0
    decreases |ds|
  {
    if ds == [] then (r, true)
    else
      var d := ds[|ds| - 1];
      var (r1, ok) := TransferAll(update, r, index, chunkSize, source, ds[..|ds| - 1]);
      if !ok then (r1, false)
      else if d.external then (r1, true)
      else match FileName(d.fileType, d.tag)
           case None => (r1, false)
           case Some(p) =>
             if p !in source then (r1, false)
             else Transfer(update, r1, index, Begin(d.fileType, d.tag, d.size, chunkSize, source[p]))
  }

  /** The metadata describes the files that the sender has, and lists no file twice. */
  ghost predicate Described(update: Update, sum: Sum, chunkSize: nat, source: map<Path, seq<Byte>>, ds: seq<Desc>)
    requires chunkSize > 0
  {
    && (forall i :: 0 <= i < |ds| && !ds[i].external ==> DescribedOne(update, sum, chunkSize, source, ds[i]))
    && (forall i, j, p :: 0 <= i < j < |ds| && Names(ds[i], p) ==> !Names(ds[j], p))
  }

  ghost predicate DescribedOne(update: Update, sum: Sum, chunkSize: nat, source: map<Path, seq<Byte>>, d: Desc)
    requires chunkSize > 0
  {
    match FileName(d.fileType, d.tag)
    case None => false
    case Some(p) =>
      && p in source && d.size == |source[p]| && d.crc == sum(source[p])
      && Checkable(update, Begin(d.fileType, d.tag, d.size, chunkSize, source[p]))
  }

  ghost predicate Listed(ds: seq<Desc>, p: Path) { exists i :: 0 <= i < |ds| && Names(ds[i], p) }

  /** The files a receiver should hold after the transfer: the listed ones that are not empty. */
  ghost function Arrived(source: map<Path, seq<Byte>>, ds: seq<Desc>): map<Path, File> {
    map p | p in source && source[p] != [] && Listed(ds, p) :: File(source[p], 1)
  }

  lemma ListedAppended(ds: seq<Desc>, d: Desc, p: Path)
    ensures Listed(ds + [d], p) <==> Listed(ds, p) || Names(d, p)
  {
    if Listed(ds, p) {
      var i :| 0 <= i < |ds| && Names(ds[i], p);
      assert Names((ds + [d])[i], p);
    }
    if Names(d, p) { assert Names((ds + [d])[|ds|], p); }
  }

  lemma ArrivedAppended(source: map<Path, seq<Byte>>, ds: seq<Desc>, d: Desc)
    ensures d.external ==> Arrived(source, ds + [d]) == Arrived(source, ds)
    ensures forall p :: Names(d, p) && p in source && source[p] == [] ==> Arrived(source, ds + [d]) == Arrived(source, ds)
    ensures forall p :: Names(d, p) && p in source && source[p] != [] ==>
              Arrived(source, ds + [d]) == Arrived(source, ds)[p := File(source[p], 1)]
  {
    forall p { ListedAppended(ds, d, p); }
  }

  /** The listed files that are not empty arrive, in whatever order they are listed, and nothing else does. */
  lemma {:induction false} SnapshotArrives(update: Update, sum: Sum, index: nat, chunkSize: nat,
                                           source: map<Path, seq<Byte>>, ds: seq<Desc>)
    requires chunkSize > 0 && Described(update, sum, chunkSize, source, ds)
    ensures TransferAll(update, Fresh(index), index, chunkSize, source, ds)
            == (Receiving(index, map[], Arrived(source, ds)), true)
  {
    if ds == [] {
    } else {
      var front, d := ds[..|ds| - 1], ds[|ds| - 1];
      assert ds == front + [d];
      SnapshotArrives(update, sum, index, chunkSize, source, front);
      ArrivedAppended(source, front, d);
      if !d.external {
        assert DescribedOne(update, sum, chunkSize, source, d);
        var p := FileName(d.fileType, d.tag).value;
        assert Names(d, p);
        assert !Listed(front, p);
        FileArrives(update, Receiving(index, map[], Arrived(source, front)), index,
                    d.fileType, d.tag, d.size, chunkSize, source[p], p);
      }
    }
  }

  /** One file can be sent: it has a name, the sender has it, and it is as long as declared. */
  predicate Sendable(update: Update, chunkSize: nat, source: map<Path, seq<Byte>>, d: Desc)
    requires chunkSize > 0
  {
    match FileName(d.fileType, d.tag)
    case None => false
    case Some(p) =>
      && p in source && d.size == |source[p]|
      && Checkable(update, Begin(d.fileType, d.tag, d.size, chunkSize, source[p]))
  }

  /** Whatever the metadata says, the whole transfer succeeds exactly if every file that is not external can be sent. */
  lemma {:induction false} SnapshotSentIff(update: Update, index: nat, chunkSize: nat, source: map<Path, seq<Byte>>,
                                           ds: seq<Desc>)
    requires chunkSize > 0
    ensures var (r, ok) := TransferAll(update, Fresh(index), index, chunkSize, source, ds);
            && (ok <==> forall i :: 0 <= i < |ds| && !ds[i].external ==> Sendable(update, chunkSize, source, ds[i]))
            && (ok ==> r.index == index && r.validators == map[])
  {
    if ds == [] {
    } else {
      var front, d := ds[..|ds| - 1], ds[|ds| - 1];
      assert ds == front + [d];
      SnapshotSentIff(update, index, chunkSize, source, front);
      var (r, ok) := TransferAll(update, Fresh(index), index, chunkSize, source, front);
      if ok && !d.external && FileName(d.fileType, d.tag).Some? {
        var p := FileName(d.fileType, d.tag).value;
        if p in source {
          RestArrives(update, r, index, Begin(d.fileType, d.tag, d.size, chunkSize, source[p]), p);
        }
      }
    }
  }

  predicate Intact(sum: Sum, files: map<Path, File>, d: Desc) {
    match FileName(d.fileType, d.tag)
    case None => false
    case Some(p) => p in files && |files[p].bytes| == d.size && sum(files[p].bytes) == d.crc
  }

  /** The validation before a received snapshot is committed, over the files that are not external. */
  method ValidateFiles(sum: Sum, files: map<Path, File>, ds: seq<Desc>) returns (ok: bool)
    ensures ok <==> forall i :: 0 <= i < |ds| && !ds[i].external ==>
              exists p :: FileName(ds[i].fileType, ds[i].tag) == Some(p) && p in files
                          && |files[p].bytes| == ds[i].size && sum(files[p].bytes) == ds[i].crc
    ensures ok <==> forall i :: 0 <= i < |ds| && !ds[i].external ==> Intact(sum, files, ds[i])
  {
    for k := 0 to |ds|
      invariant forall i :: 0 <= i < k && !ds[i].external ==> Intact(sum, files, ds[i])
    {
      if !ds[k].external {
        var name := FileName(ds[k].fileType, ds[k].tag);
        if name.None? || name.value !in files { return false; }
        var bytes := files[name.value].bytes;
        if |bytes| != ds[k].size || sum(bytes) != ds[k].crc { return false; }
      }
    }
    return true;
  }

  /** A snapshot that is sent whole passes the validation exactly if it lists no empty file. */
  lemma CommitsIffNoEmptyFile(update: Update, sum: Sum, index: nat, chunkSize: nat,
                              source: map<Path, seq<Byte>>, ds: seq<Desc>)
    requires chunkSize > 0 && Described(update, sum, chunkSize, source, ds)
    ensures var (r, ok) := TransferAll(update, Fresh(index), index, chunkSize, source, ds);
            && ok
            && ((forall i :: 0 <= i < |ds| && !ds[i].external ==> Intact(sum, r.files, ds[i])) <==>
                (forall i :: 0 <= i < |ds| && !ds[i].external ==> ds[i].size != 0))
  {
    SnapshotArrives(update, sum, index, chunkSize, source, ds);
    forall i | 0 <= i < |ds| && !ds[i].external
      ensures Intact(sum, Arrived(source, ds), ds[i]) <==> ds[i].size != 0
    {
      assert DescribedOne(update, sum, chunkSize, source, ds[i]);
      var p := FileName(ds[i].fileType, ds[i].tag).value;
      assert Names(ds[i], p);
    }
  }

  /** A snapshot with a state-machine file that the application created and left empty is transferred without
      error and then refused. */
  lemma EmptyFileIsRefused(update: Update, sum: Sum, index: nat, chunkSize: nat, tag: Tag)
    requires chunkSize > 0
    ensures var source, ds := map[StateMachineFile(tag) := []], [Desc(StateMachine, tag, 0, sum([]), false)];
            var (r, ok) := TransferAll(update, Fresh(index), index, chunkSize, source, ds);
            Described(update, sum, chunkSize, source, ds) && ok && !Intact(sum, r.files, ds[0])
  {
    var source, ds := map[StateMachineFile(tag) := []], [Desc(StateMachine, tag, 0, sum([]), false)];
    assert DescribedOne(update, sum, chunkSize, source, ds[0]);
    assert Described(update, sum, chunkSize, source, ds);
    CommitsIffNoEmptyFile(update, sum, index, chunkSize, source, ds);
    assert !ds[0].external && ds[0].size == 0;
  }

  // ---------------------------------------------------------------- the objects

  /** Entering the validator of a new tag first does not change what happens to the chunk. */
  lemma CreatedFirst(update: Update, r: Receiving, index: nat, m: Chunk)
    requires Current(r, m).Some? && r.index == index
    ensures var r' := r.(validators := r.validators[m.tag := Current(r, m).value]);
            && (Saves(update, r', index, m) <==> Saves(update, r, index, m))
            && Saved(update, r', index, m) == Saved(update, r, index, m)
  {
    var vs := r.validators[m.tag := Current(r, m).value];
    assert vs - {m.tag} == r.validators - {m.tag};
    var w := Validated(update, Current(r, m).value, m);
    assert vs[m.tag := w] == r.validators[m.tag := w];
  }

  /** What happens to a chunk whose tag has a validator. */
  lemma SavedOfKnown(update: Update, r: Receiving, index: nat, m: Chunk)
    requires m.tag in r.validators && r.index == index
    ensures var v := r.validators[m.tag]; var vs := r.validators[m.tag := Validated(update, v, m)];
            && (Saves(update, r, index, m) <==> Fits(update, v, m))
            && Saved(update, r, index, m)
               == if Fits(update, v, m) then Receiving(index, if m.last then vs - {m.tag} else vs, Appended(r.files, v.path, m.data, m.last))
                  else r.(validators := vs)
  {
    assert r.validators[m.tag := Validated(update, r.validators[m.tag], m)] - {m.tag} == r.validators - {m.tag};
  }

  class FileSystem {
    var files: map<Path, File>

    constructor ()
      ensures files == map[]
    {
      files := map[];
    }

    method FileAppendData(p: Path, data: seq<Byte>)
      modifies this
      ensures files == Appended(old(files), p, data, false)
    {
      var f := if p in files then files[p] else File([], 0);
      files := files[p := f.(bytes := f.bytes + data)];
    }

    method FileAppendFinalize(p: Path) returns (ok: bool)
      modifies this
      ensures ok <==> p in old(files)
      ensures ok ==> files == old(files)[p := File(old(files)[p].bytes, old(files)[p].finalized + 1)]
      ensures !ok ==> files == old(files)
    {
      if p !in files { return false; }
      files := files[p := files[p].(finalized := files[p].finalized + 1)];
      return true;
    }
  }

  class ChunkValidator {
    const fs: FileSystem
    const filePath: Path
    var nextChunkId: nat
    var continueCrc32: Crc
    var finish: bool

    function View(): Validation
      reads this
    {
      Validation(filePath, nextChunkId, continueCrc32, finish)
    }

    constructor (fs: FileSystem, path: Path)
      ensures this.fs == fs && View() == Validation(path, 1, 0, false)
    {
      this.fs, filePath, nextChunkId, continueCrc32, finish := fs, path, 1, 0, false;
    }

    method ValidateAndAppend(update: Update, m: Chunk) returns (ok: bool)
      modifies this, fs
      ensures ok <==> !old(finish) && m.id == old(nextChunkId) && m.crc == update(old(continueCrc32), m.data)
      ensures ok ==> nextChunkId == (if m.last then m.id else m.id + 1) && continueCrc32 == m.crc && finish == m.last
      ensures !ok ==> nextChunkId == old(nextChunkId) && finish == old(finish)
      ensures ok <==> Fits(update, old(View()), m)
      ensures View() == Validated(update, old(View()), m)
      ensures fs.files == if ok then Appended(old(fs.files), filePath, m.data, m.last) else old(fs.files)
    {
      if finish || nextChunkId != m.id { return false; }
      continueCrc32 := update(continueCrc32, m.data);
      if continueCrc32 != m.crc { return false; }
      fs.FileAppendData(filePath, m.data);
      if m.last {
        finish := true;
        var finalized := fs.FileAppendFinalize(filePath);
        if !finalized { return false; }
      } else {
        nextChunkId := nextChunkId + 1;
      }
      return true;
    }
  }

  class Receiver {
    const fs: FileSystem
    const index: nat
    var chunkValidator: map<Tag, ChunkValidator>
    ghost var repr: set<ChunkValidator>

    ghost predicate Valid()
      reads this, repr
    {
      && (forall t :: t in chunkValidator ==> chunkValidator[t] in repr && chunkValidator[t].fs == fs)
      && (forall t, u :: t in chunkValidator && u in chunkValidator && t != u ==> chunkValidator[t] != chunkValidator[u])
    }

    ghost function View(): Receiving
      requires Valid()
      reads this, repr, fs
    {
      Receiving(index, map t | t in chunkValidator :: chunkValidator[t].View(), fs.files)
    }

    constructor (fs: FileSystem, index: nat)
      ensures Valid() && repr == {} && this.fs == fs && View() == Receiving(index, map[], fs.files)
    {
      this.fs, this.index, chunkValidator, repr := fs, index, map[], {};
    }

    /** The chunk message as the storage handles it, which asks for a checksum other than zero first. */
    method ProcessChunk(update: Update, index: nat, m: Chunk) returns (ok: bool)
      requires Valid()
      modifies this, repr, fs
      ensures Valid() && fresh(repr - old(repr))
      ensures ok <==> Accepts(update, old(View()), index, m)
      ensures View() == Processed(update, old(View()), index, m)
    {
      if m.crc == 0 { return false; }
      ok := SaveChunk(update, index, m);
    }

    method SaveChunk(update: Update, index: nat, m: Chunk) returns (ok: bool)
      requires Valid()
      modifies this, repr, fs
      ensures Valid() && fresh(repr - old(repr))
      ensures ok <==> Saves(update, old(View()), index, m)
      ensures View() == Saved(update, old(View()), index, m)
    {
      if this.index != index { return false; }
      var found := FindOrCreate(m);
      if !found { return false; }
      CreatedFirst(update, old(View()), index, m);
      ok := AppendTo(update, index, m);
    }

    method AppendTo(update: Update, ghost index: nat, m: Chunk) returns (ok: bool)
      requires Valid() && this.index == index && m.tag in chunkValidator
      modifies this`chunkValidator, repr, fs
      ensures Valid()
      ensures ok <==> Saves(update, old(View()), index, m)
      ensures View() == Saved(update, old(View()), index, m)
    {
      SavedOfKnown(update, View(), index, m);
      ok := Validate(update, m);
      if ok && m.last { Forget(m.tag); }
    }

    method Validate(update: Update, m: Chunk) returns (ok: bool)
      requires Valid() && m.tag in chunkValidator
      modifies repr, fs
      ensures Valid()
      ensures var was := old(View()); var v := was.validators[m.tag];
              && (ok <==> Fits(update, v, m))
              && View().validators == was.validators[m.tag := Validated(update, v, m)]
              && View().files == if ok then Appended(was.files, v.path, m.data, m.last) else was.files
    {
      ok := chunkValidator[m.tag].ValidateAndAppend(update, m);
      assert forall t :: t in chunkValidator && t != m.tag ==> chunkValidator[t].View() == old(chunkValidator[t].View());
    }

    method Forget(t: Tag)
      requires Valid()
      modifies this`chunkValidator
      ensures Valid() && View() == old(View()).(validators := old(View()).validators - {t})
    {
      chunkValidator := chunkValidator - {t};
    }

    method FindOrCreate(m: Chunk) returns (found: bool)
      requires Valid()
      modifies this
      ensures Valid() && repr >= old(repr) && fresh(repr - old(repr))
      ensures found <==> Current(old(View()), m).Some?
      ensures !found ==> View() == old(View())
      ensures found ==> m.tag in chunkValidator
      ensures found ==> View() == old(View()).(validators := old(View()).validators[m.tag := Current(old(View()), m).value])
    {
      if m.tag in chunkValidator {
        assert old(View()).validators[m.tag := Current(old(View()), m).value] == old(View()).validators;
        return true;
      }
      var name := FileName(m.fileType, m.tag);
      if name.None? { return false; }
      var v := new ChunkValidator(fs, name.value);
      chunkValidator := chunkValidator[m.tag := v];
      repr := repr + {v};
      return true;
    }
  }

  /** The sender's loop for one file, talking to a receiver. */
  method SendFile(update: Update, receiver: Receiver, index: nat, t: FileType, tag: Tag, size: int, chunkSize: nat,
                  content: seq<Byte>) returns (ok: bool)
    requires chunkSize > 0 && receiver.Valid()
    modifies receiver, receiver.repr, receiver.fs
    ensures receiver.Valid()
    ensures (receiver.View(), ok) == Transfer(update, old(receiver.View()), index, Begin(t, tag, size, chunkSize, content))
    ensures ok ==> size == |content|
  {
    var s := Begin(t, tag, size, chunkSize, content);
    while true
      invariant receiver.Valid() && fresh(receiver.repr - old(receiver.repr))
      invariant s.chunkSize == chunkSize && s.size == size && s.written + |s.rest| == |content|
      invariant Transfer(update, receiver.View(), index, s)
                == Transfer(update, old(receiver.View()), index, Begin(t, tag, size, chunkSize, content))
      decreases |s.rest|
    {
      if s.rest == [] { return s.size == s.written; }
      var m := Next(update, s);
      var accepted := receiver.ProcessChunk(update, index, m);
      if !accepted { return false; }
      if |m.data| < s.chunkSize { return s.size == s.written + |m.data|; }
      s := Advance(update, s);
    }
  }
}
