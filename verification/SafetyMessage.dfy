/** The seqlock of SafetyMessage.cpp: one writer and one reader on a shared message with no lock.
    Every load and store of a 32-bit cell is a step of its own, and the copies may touch their
    cells in any order. */
module SafetyMessage {
  import opened Wrappers

  type UInt32 = v: int | 0 <= v < 0x1_0000_0000

  const MODULUS := 0x1_0000_0000
  const MESSAGE_MAGIC: UInt32 := 0x4144_5341
  const MESSAGE_VERSION: UInt32 := 1
  const MAX_DETECTIONS := 32
  const RECORD_CELLS := 6

  // Cells: magic, version, count, capture time (two), then the detection records.
  const DETECTIONS_AT := 5
  const CELLS := DETECTIONS_AT + MAX_DETECTIONS * RECORD_CELLS

  type Record = r: seq<UInt32> | |r| == RECORD_CELLS witness [0, 0, 0, 0, 0, 0]

  /** One call of `publish`: `items` is None for a null pointer. */
  datatype Publication = Publication(items: Option<seq<Record>>, count: nat, timeLow: UInt32, timeHigh: UInt32)
  {
    /** The caller passes as many records as it says. */
    predicate Valid() { items.Some? ==> |items.value| == count }

    function Stored(): (n: nat)
      ensures n <= MAX_DETECTIONS && n <= count
    {
      if count > MAX_DETECTIONS then MAX_DETECTIONS else count
    }
  }

  function Flatten(rs: seq<Record>): (cells: seq<UInt32>)
    ensures |cells| == RECORD_CELLS * |rs|
  {
    if rs == [] then [] else Flatten(rs[..|rs| - 1]) + rs[|rs| - 1]
  }

  /** Record `k` occupies its own six cells. */
  lemma {:induction false} FlattenAt(rs: seq<Record>, k: nat)
    requires k < |rs|
    ensures Flatten(rs)[RECORD_CELLS * k..RECORD_CELLS * (k + 1)] == rs[k]
  {
    if k < |rs| - 1 {
      FlattenAt(rs[..|rs| - 1], k);
    }
  }

  /** The cells a publication overwrites: always a prefix of the message. */
  function Image(p: Publication): (cells: seq<UInt32>)
    requires p.Valid()
    ensures DETECTIONS_AT <= |cells| <= CELLS
  {
    [MESSAGE_MAGIC, MESSAGE_VERSION, p.Stored(), p.timeLow, p.timeHigh]
    + if p.items.Some? then Flatten(p.items.value[..p.Stored()]) else []
  }

  /** The number of records that get through: at most 32. */
  function Kept(count: nat): nat { if count <= 32 then count else 32 }

  /** The message carries publication `p`: its marks, its count (32 at most), its capture time, and as
      many of its records, in order, six cells each. */
  ghost predicate Carries(out: seq<UInt32>, p: Publication)
  {
    && p.Valid() && |out| == 5 + 32 * 6 && out[0] == 0x4144_5341 && out[1] == 1
    && out[2] == Kept(p.count) && out[3] == p.timeLow && out[4] == p.timeHigh
    && forall d :: 0 <= d < Kept(p.count) && p.items.Some? ==> out[5 + 6 * d..5 + 6 * (d + 1)] == p.items.value[d]
  }

  lemma ImageCarries(p: Publication, out: seq<UInt32>)
    requires p.Valid() && |out| == CELLS && Image(p) <= out
    ensures Carries(out, p)
  {
    assert Image(p)[0] == out[0] && Image(p)[1] == out[1] && Image(p)[2] == out[2] && Image(p)[3] == out[3]
        && Image(p)[4] == out[4];
    forall d | 0 <= d < Kept(p.count) && p.items.Some?
      ensures out[5 + 6 * d..5 + 6 * (d + 1)] == p.items.value[d]
    {
      FlattenAt(p.items.value[..p.Stored()], d);
    }
  }

  datatype Writer = Resting | Storing(p: Publication, stored: set<int>)

  /** `Copying` remembers the sequence value read first; `began` is its unbounded counterpart. */
  datatype Reader = Away | Trying(attempt: nat, retries: nat)
                  | Copying(attempt: nat, retries: nat, before: UInt32, began: nat, copied: set<int>, out: seq<UInt32>)

  datatype Success = Success(index: nat, out: seq<UInt32>)

  /** `log` lists the completed publications and `writes` counts the sequence increments;
      neither exists in the program. `successes` are the reads that returned true. */
  datatype State = State(sequence: UInt32, cells: seq<UInt32>, writer: Writer, reader: Reader,
                         writes: nat, log: seq<Publication>, successes: seq<Success>)

  predicate Init(s: State)
  {
    && s.sequence == 0 && |s.cells| == CELLS && s.cells[0] != MESSAGE_MAGIC
    && s.writer.Resting? && s.reader.Away? && s.writes == 0 && s.log == [] && s.successes == []
  }

  function Increment(sequence: UInt32): UInt32 { (sequence + 1) % MODULUS }

  ghost predicate WriterStep(s: State, t: State)
  {
    || (exists p: Publication :: Begin(s, t, p))
    || (exists i: int :: StoreCell(s, t, i))
    || Finish(s, t)
  }

  /** The counter turns odd: a publication is under way. */
  ghost predicate Begin(s: State, t: State, p: Publication)
  {
    && p.Valid() && s.writer.Resting?
    && t == s.(sequence := Increment(s.sequence), writes := s.writes + 1, writer := Storing(p, {}))
  }

  ghost predicate StoreCell(s: State, t: State, i: int)
  {
    && s.writer.Storing? && s.writer.p.Valid() && 0 <= i < |Image(s.writer.p)| && |s.cells| == CELLS
    && t == s.(cells := s.cells[i := Image(s.writer.p)[i]], writer := s.writer.(stored := s.writer.stored + {i}))
  }

  /** Every cell has been stored: the counter turns even again. */
  ghost predicate Finish(s: State, t: State)
  {
    && s.writer.Storing? && s.writer.p.Valid()
    && (forall i :: 0 <= i < |Image(s.writer.p)| ==> i in s.writer.stored)
    && t == s.(sequence := Increment(s.sequence), writes := s.writes + 1,
               writer := Resting, log := s.log + [s.writer.p])
  }

  /** The reader gives up after `retries` more attempts. */
  function NextAttempt(attempt: nat, retries: nat): Reader
  {
    if attempt < retries then Trying(attempt + 1, retries) else Away
  }

  predicate Acceptable(out: seq<UInt32>)
    requires |out| == CELLS
  {
    out[0] == MESSAGE_MAGIC && out[1] == MESSAGE_VERSION && out[2] <= MAX_DETECTIONS
  }

  ghost predicate ReaderStep(s: State, t: State)
  {
    || (s.reader.Away? && exists retries: nat :: t == s.(reader := Trying(0, retries)))
    || (s.reader.Trying? && s.sequence % 2 == 1 && t == s.(reader := NextAttempt(s.reader.attempt, s.reader.retries)))
    || (exists junk: seq<UInt32> :: StartCopy(s, t, junk))
    || (exists i: int :: CopyCell(s, t, i))
    || Check(s, t)
  }

  /** An even counter: the attempt begins, with whatever the output buffer held. */
  ghost predicate StartCopy(s: State, t: State, junk: seq<UInt32>)
  {
    && s.reader.Trying? && s.sequence % 2 == 0 && |junk| == CELLS
    && t == s.(reader := Copying(s.reader.attempt, s.reader.retries, s.sequence, s.writes, {}, junk))
  }

  ghost predicate CopyCell(s: State, t: State, i: int)
  {
    && s.reader.Copying? && 0 <= i < CELLS && |s.reader.out| == CELLS && |s.cells| == CELLS
    && t == s.(reader := s.reader.(copied := s.reader.copied + {i}, out := s.reader.out[i := s.cells[i]]))
  }

  ghost predicate AllCopied(s: State)
  {
    s.reader.Copying? && |s.reader.out| == CELLS && forall i :: 0 <= i < CELLS ==> i in s.reader.copied
  }

  ghost predicate Check(s: State, t: State)
  {
    && AllCopied(s)
    && t == if s.sequence != s.reader.before then s.(reader := NextAttempt(s.reader.attempt, s.reader.retries))
            else if !Acceptable(s.reader.out) then s.(reader := Away)
            else s.(reader := Away, successes := s.successes + [Success(|s.log|, s.reader.out)])
  }

  ghost predicate Step(s: State, t: State) { WriterStep(s, t) || ReaderStep(s, t) }

  /** Fewer than 2^31 publications fall into one attempt, so the counter does not come round. */
  predicate NoWrapAround(s: State)
  {
    s.reader.Copying? ==> s.writes - s.reader.began < MODULUS
  }

  ghost predicate WriterInv(s: State)
  {
    && |s.cells| == CELLS && s.sequence == s.writes % MODULUS
    && (forall p :: p in s.log ==> p.Valid())
    && match s.writer
       case Resting =>
         && s.writes == 2 * |s.log|
         && (if s.log == [] then s.cells[0] != MESSAGE_MAGIC else Image(s.log[|s.log| - 1]) <= s.cells)
       case Storing(p, stored) =>
         && s.writes == 2 * |s.log| + 1 && p.Valid()
         && (forall i :: 0 <= i < |Image(p)| && i in stored ==> s.cells[i] == Image(p)[i])
  }

  ghost predicate ReaderInv(s: State)
  {
    s.reader.Copying? ==>
      && s.reader.began % 2 == 0 && s.reader.began <= s.writes && s.reader.before == s.reader.began % MODULUS
      && |s.reader.out| == CELLS && |s.cells| == CELLS
      && (s.writes == s.reader.began ==> forall i :: i in s.reader.copied && 0 <= i < CELLS ==>
          s.reader.out[i] == s.cells[i])
      && (forall r :: r in s.successes ==> 2 * r.index <= s.reader.began)
  }

  /** A success is a complete publication: everything that publication wrote, nothing else. */
  ghost predicate IsPublished(log: seq<Publication>, r: Success)
  {
    && 1 <= r.index <= |log| && log[r.index - 1].Valid()
    && |r.out| == CELLS && Image(log[r.index - 1]) <= r.out
  }

  ghost predicate SuccessInv(s: State)
  {
    && (forall r :: r in s.successes ==> IsPublished(s.log, r) && 2 * r.index <= s.writes)
    && forall i, j :: 0 <= i < j < |s.successes| ==> s.successes[i].index <= s.successes[j].index
  }

  ghost predicate Inv(s: State) { WriterInv(s) && ReaderInv(s) && SuccessInv(s) }

  lemma BeginInv(s: State, t: State, p: Publication)
    requires Inv(s) && Begin(s, t, p)
    ensures Inv(t)
  {
    hide Image, IsPublished;
  }

  lemma StoreCellInv(s: State, t: State, i: int)
    requires Inv(s) && StoreCell(s, t, i)
    ensures Inv(t)
  {
    assert t.writer.p == s.writer.p;
  }

  lemma FinishInv(s: State, t: State)
    requires Inv(s) && Finish(s, t)
    ensures Inv(t)
  {
    var p := s.writer.p;
    assert Image(p) <= t.cells;
    assert t.log[|t.log| - 1] == p;
  }

  lemma WriterStepInv(s: State, t: State)
    requires Inv(s) && WriterStep(s, t)
    ensures Inv(t)
  {
    hide Inv, Begin, StoreCell, Finish;
    if i: int :| StoreCell(s, t, i) {
      StoreCellInv(s, t, i);
    } else if Finish(s, t) {
      FinishInv(s, t);
    } else if p: Publication :| Begin(s, t, p) {
      BeginInv(s, t, p);
    }
  }

  /** Exactly when the end-of-attempt check passes: the increments since the attempt began are a
      multiple of 2^32. Beyond the wrap-around bound it can pass although cells were rewritten. */
  lemma CheckPassesIff(s: State)
    requires Inv(s) && s.reader.Copying?
    ensures s.sequence == s.reader.before <==> (s.writes - s.reader.began) % MODULUS == 0
    ensures NoWrapAround(s) ==> (s.sequence == s.reader.before <==> s.writes == s.reader.began)
  {
    hide Image, IsPublished;
    ResidueIff(s.writes, s.reader.began);
    if s.sequence == s.reader.before && NoWrapAround(s) { SameResidue(s.writes, s.reader.began); }
    hide Inv;
  }

  lemma ResidueIff(a: nat, b: nat)
    requires b <= a
    ensures a % MODULUS == b % MODULUS <==> (a - b) % MODULUS == 0
  {
  }

  lemma SameResidue(a: nat, b: nat)
    requires b <= a && a - b < MODULUS && a % MODULUS == b % MODULUS
    ensures a == b
  {
  }

  /** The check at the end of an attempt: an unchanged counter means that nothing was written
      since the attempt began, so the copy is the message as the last publication left it. */
  lemma CheckedCopy(s: State)
    requires Inv(s) && NoWrapAround(s)
    requires AllCopied(s) && s.sequence == s.reader.before
    requires Acceptable(s.reader.out)
    ensures s.writer.Resting? && s.log != [] && s.reader.began == 2 * |s.log|
    ensures s.reader.out == s.cells && IsPublished(s.log, Success(|s.log|, s.reader.out))
  {
    CheckPassesIff(s);
    assert s.reader.out == s.cells;
    assert s.log[|s.log| - 1] in s.log;
  }

  /** Steps of the reader that record no success leave the writer's and the successes' side alone. */
  lemma ReaderOnly(s: State, t: State)
    requires t == s.(reader := t.reader)
    ensures WriterInv(s) ==> WriterInv(t)
    ensures SuccessInv(s) ==> SuccessInv(t)
  {
    hide Image, IsPublished;
  }

  lemma CopyCellInv(s: State, t: State, i: int)
    requires Inv(s) && CopyCell(s, t, i)
    ensures Inv(t)
  {
    ReaderOnly(s, t);
    hide WriterInv, SuccessInv;
  }

  lemma CheckInv(s: State, t: State)
    requires Inv(s) && NoWrapAround(s) && Check(s, t)
    ensures Inv(t)
  {
    hide Image;
    if s.sequence == s.reader.before && Acceptable(s.reader.out) {
      CheckedCopy(s);
    }
  }

  lemma StartCopyInv(s: State, t: State, junk: seq<UInt32>)
    requires Inv(s) && StartCopy(s, t, junk)
    ensures Inv(t)
  {
    WriterFacts(s);
    ReaderOnly(s, t);
    hide WriterInv, SuccessInv;
    StartCopyReader(s, t, junk);
  }

  lemma WriterFacts(s: State)
    requires WriterInv(s) && SuccessInv(s)
    ensures |s.cells| == CELLS && s.sequence == s.writes % MODULUS
    ensures forall r :: r in s.successes ==> 2 * r.index <= s.writes
  {
    hide Image, IsPublished;
  }

  lemma StartCopyReader(s: State, t: State, junk: seq<UInt32>)
    requires StartCopy(s, t, junk) && |s.cells| == CELLS && s.sequence == s.writes % MODULUS
    requires forall r :: r in s.successes ==> 2 * r.index <= s.writes
    ensures ReaderInv(t)
  {
  }

  lemma OtherReaderInv(s: State, t: State, r: Reader)
    requires Inv(s) && !r.Copying? && t == s.(reader := r)
    ensures Inv(t)
  {
    ReaderOnly(s, t);
    hide WriterInv, SuccessInv;
  }

  lemma ReaderStepInv(s: State, t: State)
    requires Inv(s) && NoWrapAround(s) && ReaderStep(s, t)
    ensures Inv(t)
  {
    hide Inv, NoWrapAround, Check, CopyCell, StartCopy;
    if Check(s, t) {
      CheckInv(s, t);
    } else if i: int :| CopyCell(s, t, i) {
      CopyCellInv(s, t, i);
    } else if junk: seq<UInt32> :| StartCopy(s, t, junk) {
      StartCopyInv(s, t, junk);
    } else {
      OtherReaderInv(s, t, t.reader);
    }
  }

  /** A run of the two parties, one step at a time. */
  ghost predicate IsRun(run: seq<State>)
  {
    && run != [] && Init(run[0])
    && forall i :: 0 <= i < |run| - 1 ==> Step(run[i], run[i + 1]) && NoWrapAround(run[i])
  }

  lemma {:induction false} RunInv(run: seq<State>, k: nat)
    requires IsRun(run) && k < |run|
    ensures Inv(run[k])
  {
    if k > 0 {
      RunInv(run, k - 1);
      assert Step(run[k - 1], run[k - 1 + 1]);
      if WriterStep(run[k - 1], run[k]) {
        WriterStepInv(run[k - 1], run[k]);
      } else {
        ReaderStepInv(run[k - 1], run[k]);
      }
    }
  }

  /** In every interleaving, every read that returned true delivered the count, the capture time
      and the first `count` detections of exactly one completed publication, and later reads
      never deliver an older publication than earlier ones. */
  lemma SnapshotsAreAtomic(run: seq<State>, k: nat, i: nat)
    requires IsRun(run) && k < |run| && i < |run[k].successes|
    ensures var s, r := run[k], run[k].successes[i];
      1 <= r.index <= |s.log| && Carries(r.out, s.log[r.index - 1])
    ensures forall j :: i < j < |run[k].successes| ==> run[k].successes[i].index <= run[k].successes[j].index
  {
    RunInv(run, k);
    var s, r := run[k], run[k].successes[i];
    assert r in s.successes;
    var p := s.log[r.index - 1];
    ImageCarries(p, r.out);
  }

  ghost predicate WriterTrace(trace: seq<State>)
  {
    trace != [] && forall i, j :: 0 <= i && j == i + 1 < |trace| ==> WriterStep(trace[i], trace[j])
  }

  ghost predicate Trace(trace: seq<State>)
  {
    trace != [] && forall i, j :: 0 <= i && j == i + 1 < |trace| ==> Step(trace[i], trace[j])
  }

  lemma WriterTraceExtend(trace: seq<State>, t: State)
    requires WriterTrace(trace) && WriterStep(trace[|trace| - 1], t)
    ensures WriterTrace(trace + [t])
  {
  }

  lemma TraceExtend(trace: seq<State>, t: State)
    requires Trace(trace) && Step(trace[|trace| - 1], t)
    ensures Trace(trace + [t])
  {
  }

  /** What the writer's thread may do between two loads of the reader; a step that is not possible
      at the time is no step. */
  datatype Act = BeginPublish(p: Publication) | StoreAt(i: nat) | EndPublish

  /** No interference at any time. */
  predicate Quiet(acts: seq<seq<Act>>) { forall k :: 0 <= k < |acts| ==> acts[k] == [] }

  /** What happens before the `n`-th load of a read. */
  function At(acts: seq<seq<Act>>, n: nat): (r: seq<Act>)
    ensures Quiet(acts) ==> r == []
  {
    if n < |acts| then acts[n] else []
  }

  /** The writer's thread, somewhere in `publish`. */
  class WriterThread {
    var writer: Writer

    constructor ()
      ensures writer == Resting
    {
      writer := Resting;
    }

    /** One step of the protocol, or none. */
    method Perform(a: Act, m: SharedMessage, ghost s: State) returns (ghost t: State)
      requires m.Shows(s) && s.writer == writer
      modifies this, m, m.cells
      ensures m.Shows(t) && t.writer == writer && t.reader == s.reader && t.successes == s.successes
      ensures t == s || WriterStep(s, t)
    {
      hide Image;
      t := s;
      match a {
        case BeginPublish(p) =>
          if writer.Resting? && p.Valid() {
            m.sequence, writer := Increment(m.sequence), Storing(p, {});
            t := s.(sequence := Increment(s.sequence), writes := s.writes + 1, writer := writer);
            assert Begin(s, t, p);
          }
        case StoreAt(i) =>
          if writer.Storing? && writer.p.Valid() && i < |Image(writer.p)| {
            var v := Image(writer.p)[i];
            m.cells[i], writer := v, writer.(stored := writer.stored + {i});
            t := s.(cells := s.cells[i := v], writer := writer);
            assert StoreCell(s, t, i);
          }
        case EndPublish =>
          if writer.Storing? && writer.p.Valid() && forall i :: 0 <= i < |Image(writer.p)| ==> i in writer.stored {
            m.sequence, writer := Increment(m.sequence), Resting;
            t := s.(sequence := Increment(s.sequence), writes := s.writes + 1, writer := Resting,
                    log := s.log + [s.writer.p]);
            assert Finish(s, t);
          }
      }
    }

    /** A series of steps, appended to the trace. */
    method Run(acts: seq<Act>, m: SharedMessage, ghost before: seq<State>) returns (ghost trace: seq<State>)
      requires Trace(before) && m.Shows(before[|before| - 1]) && before[|before| - 1].writer == writer
      modifies this, m, m.cells
      ensures Trace(trace) && before <= trace && m.Shows(trace[|trace| - 1])
      ensures var s, t := before[|before| - 1], trace[|trace| - 1];
        t.writer == writer && t.reader == s.reader && t.successes == s.successes
      ensures acts == [] ==> trace == before && m.sequence == old(m.sequence) && m.cells[..] == old(m.cells[..])
    {
      trace := before;
      ghost var s := before[|before| - 1];
      ghost var now := s;
      for n := 0 to |acts|
        invariant Trace(trace) && before <= trace && trace[|trace| - 1] == now && m.Shows(now)
        invariant now.writer == writer && now.reader == s.reader && now.successes == s.successes
        invariant n == 0 ==> trace == before && m.sequence == old(m.sequence) && m.cells[..] == old(m.cells[..])
      {
        hide Trace, SharedMessage.Shows, WriterStep, ReaderStep;
        ghost var next := Perform(acts[n], m, now);
        if next != now {
          TraceExtend(trace, next);
          trace, now := trace + [next], next;
        }
      }
    }
  }

  lemma ImageSize(p: Publication)
    requires p.Valid()
    ensures |Image(p)| == 5 + 6 * if p.items.Some? then Kept(p.count) else 0
  {
  }

  lemma Unstored(p: Publication, before: seq<UInt32>, after: seq<UInt32>)
    requires p.Valid() && |before| == CELLS && after == Image(p) + before[|Image(p)|..]
    ensures forall i :: |Image(p)| <= i < CELLS ==> after[i] == before[i]
  {
    hide Image;
  }

  /** The message has the marks of the format and a possible count. */
  predicate Usable(out: seq<UInt32>)
    requires |out| == CELLS
  {
    out[0] == 0x4144_5341 && out[1] == 1 && out[2] <= 32
  }

  /** The state before the last step of a read that returned false: the last attempt met an odd or a
      changed counter, or an attempt with an unchanged counter copied something unusable. */
  ghost predicate GaveUp(s: State, maxRetries: int)
  {
    match s.reader
    case Away => false
    case Trying(attempt, _) => attempt == maxRetries && s.sequence % 2 == 1
    case Copying(attempt, _, before, _, _, out) =>
      if s.sequence == before then |out| == CELLS && !Usable(out) else attempt == maxRetries
  }

  /** The same for one attempt. */
  ghost predicate Failed(s: State, attempt: nat, decided: bool)
  {
    match s.reader
    case Away => false
    case Trying(n, _) => n == attempt && !decided && s.sequence % 2 == 1
    case Copying(n, _, before, _, _, out) =>
      n == attempt && (decided <==> s.sequence == before) && (decided ==> |out| == CELLS && !Usable(out))
  }

  /** One attempt has ended: in a decision, or with the next attempt to come. */
  ghost predicate AttemptEnds(s: State, trace: seq<State>, attempt: nat, retries: nat, decided: bool, ok: bool,
                              out: seq<UInt32>)
  {
    && |trace| > 1 && (ok ==> decided) && (!ok ==> Failed(trace[|trace| - 2], attempt, decided))
    && var t := trace[|trace| - 1];
       && t.reader == (if decided then Away else NextAttempt(attempt, retries))
       && t.successes == if ok then s.successes + [Success(|t.log|, out)] else s.successes
  }

  lemma EndOdd(s: State, before: seq<State>, attempt: nat, retries: nat) returns (trace: seq<State>)
    requires Trace(before) && var b := before[|before| - 1];
      b.reader == Trying(attempt, retries) && b.sequence % 2 == 1 && b.successes == s.successes
    ensures Trace(trace) && before <= trace && SameShared(before[|before| - 1], trace[|trace| - 1])
    ensures AttemptEnds(s, trace, attempt, retries, false, false, [])
  {
    assert before != [];
    hide Trace;
    var b := before[|before| - 1];
    var next := b.(reader := NextAttempt(attempt, retries));
    OddCounter(b, next);
    TraceExtend(before, next);
    trace := before + [next];
  }

  lemma BeginCopy(before: seq<State>, attempt: nat, retries: nat) returns (trace: seq<State>)
    requires Trace(before) && var b := before[|before| - 1];
      b.reader == Trying(attempt, retries) && b.sequence % 2 == 0
    ensures Trace(trace) && before <= trace && SameShared(before[|before| - 1], trace[|trace| - 1])
    ensures var b, t := before[|before| - 1], trace[|trace| - 1];
      && t.reader.Copying? && |t.reader.out| == CELLS && t.successes == b.successes
      && t.reader.attempt == attempt && t.reader.retries == retries && t.reader.before == b.sequence
  {
    assert before != [];
    hide Trace;
    var b := before[|before| - 1];
    var junk := seq(CELLS, _ => 0);
    var begun := b.(reader := Copying(attempt, retries, b.sequence, b.writes, {}, junk));
    EvenCounter(b, begun, junk);
    TraceExtend(before, begun);
    trace := before + [begun];
  }

  lemma EndCheck(s: State, before: seq<State>, attempt: nat, retries: nat, decided: bool, ok: bool, out: seq<UInt32>)
    returns (trace: seq<State>)
    requires Trace(before) && var b := before[|before| - 1];
      && AllCopied(b) && b.reader.attempt == attempt && b.reader.retries == retries && b.reader.out == out
      && b.successes == s.successes && (decided <==> b.sequence == b.reader.before) && (ok <==> decided && Usable(out))
    ensures Trace(trace) && before <= trace && SameShared(before[|before| - 1], trace[|trace| - 1])
    ensures AttemptEnds(s, trace, attempt, retries, decided, ok, out)
  {
    assert before != [];
    UsableIsAcceptable();
    hide Trace, Usable, Acceptable;
    var b := before[|before| - 1];
    var done := if !decided then b.(reader := NextAttempt(attempt, retries))
                else if ok then b.(reader := Away, successes := b.successes + [Success(|b.log|, out)])
                else b.(reader := Away);
    CounterAgain(b, done);
    TraceExtend(before, done);
    trace := before + [done];
  }

  /** The reader's own steps leave the shared memory and the writer alone. */
  predicate SameShared(s: State, t: State)
  {
    t.sequence == s.sequence && t.cells == s.cells && t.writer == s.writer && t.log == s.log
  }

  lemma FailedGivesUp(s: State, attempt: nat, decided: bool, maxRetries: int)
    requires Failed(s, attempt, decided) && (!decided ==> attempt == maxRetries)
    ensures GaveUp(s, maxRetries)
  {
    hide Usable;
  }

  lemma CarriesIsUsable(out: seq<UInt32>, p: Publication)
    requires Carries(out, p)
    ensures |out| == CELLS && Usable(out)
  {
  }

  lemma UsableIsAcceptable()
    ensures forall out: seq<UInt32> :: |out| == CELLS ==> (Usable(out) <==> Acceptable(out))
  {
  }

  /** The shared buffer with the two routines as the program runs them. Each routine is shown to
      perform a sequence of the protocol's steps. */
  class SharedMessage {
    var sequence: UInt32
    const cells: array<UInt32>

    ghost predicate Shows(s: State)
      reads this, cells
    {
      cells.Length == CELLS && s.sequence == sequence && s.cells == cells[..]
    }

    constructor ()
      ensures cells.Length == CELLS && fresh(cells) && sequence == 0 && forall i :: 0 <= i < CELLS ==> cells[i] == 0
    {
      sequence := 0;
      cells := new UInt32[CELLS](_ => 0);
    }

    /** The writer has stored the first `n` cells of `p`, by steps of the protocol. */
    ghost predicate StoredSoFar(p: Publication, s: State, before: seq<State>, trace: seq<State>, n: nat)
      requires p.Valid()
    {
      && WriterTrace(trace) && before <= trace
      && var t := trace[|trace| - 1];
         && t.writer.Storing? && t.writer.p == p && t.log == s.log && t.reader == s.reader
         && forall k :: 0 <= k < n ==> k in t.writer.stored
    }

    /** The copy loop of `publish`, one store step per cell. */
    method StoreImage(p: Publication, ghost s: State, ghost before: seq<State>) returns (ghost trace: seq<State>)
      requires p.Valid() && Shows(s) && s.writer == Storing(p, {})
      requires WriterTrace(before) && before[|before| - 1] == s
      modifies cells
      ensures StoredSoFar(p, s, before, trace, |Image(p)|) && Shows(trace[|trace| - 1])
      ensures cells[..] == Image(p) + old(cells[..])[|Image(p)|..]
    {
      hide Image, WriterStep;
      var image := Image(p);
      trace := before;
      SpliceEnds(image, cells[..]);
      for i := 0 to |image|
        invariant StoredSoFar(p, s, before, trace, i) && Shows(trace[|trace| - 1])
        invariant cells[..] == Spliced(image, old(cells[..]), i)
      {
        hide StoredSoFar, Spliced, WriterTrace;
        trace := StoreOne(p, s, before, trace, i, old(cells[..]));
      }
    }

    method StoreOne(p: Publication, ghost s: State, ghost before: seq<State>, ghost was: seq<State>, i: nat,
                    ghost rest: seq<UInt32>)
      returns (ghost trace: seq<State>)
      requires p.Valid() && i < |Image(p)| && StoredSoFar(p, s, before, was, i) && Shows(was[|was| - 1])
      requires |rest| == CELLS && cells[..] == Spliced(Image(p), rest, i)
      modifies cells
      ensures StoredSoFar(p, s, before, trace, i + 1) && Shows(trace[|trace| - 1])
      ensures cells[..] == Spliced(Image(p), rest, i + 1)
    {
      ghost var last := was[|was| - 1];
      assert last.writer.p == p;
      hide Image, WriterStep, WriterTrace, Spliced;
      ghost var now;
      now, trace := StoreGhost(last, was, i);
      SpliceStep(Image(p), rest, i);
      ghost var cellsBefore := cells[..];
      cells[i] := Image(p)[i];
      assert cells[..] == cellsBefore[i := Image(p)[i]];
    }

    /** The protocol step that one store of the copy loop performs. */
    lemma StoreGhost(s: State, before: seq<State>, i: nat) returns (t: State, trace: seq<State>)
      requires s.writer.Storing? && s.writer.p.Valid() && i < |Image(s.writer.p)| && |s.cells| == CELLS
      requires WriterTrace(before) && before[|before| - 1] == s
      ensures t == s.(cells := s.cells[i := Image(s.writer.p)[i]], writer := s.writer.(stored := s.writer.stored + {i}))
      ensures trace == before + [t] && WriterTrace(trace)
    {
      hide Image;
      t := s.(cells := s.cells[i := Image(s.writer.p)[i]], writer := s.writer.(stored := s.writer.stored + {i}));
      assert StoreCell(s, t, i);
      StoreExtend(before, t, i);
      trace := before + [t];
    }

    /** `publish`. */
    method Publish(p: Publication, ghost s: State) returns (ghost trace: seq<State>)
      requires p.Valid() && Shows(s) && s.writer.Resting?
      modifies this, cells
      ensures WriterTrace(trace) && trace[0] == s && Shows(trace[|trace| - 1])
      ensures trace[|trace| - 1].writer.Resting? && trace[|trace| - 1].log == s.log + [p]
      ensures trace[|trace| - 1].reader == s.reader
      ensures sequence == (old(sequence) + 2) % MODULUS
      ensures cells[..] == Image(p) + old(cells[..])[|Image(p)|..]
      ensures Carries(cells[..], p)
      ensures forall i :: 5 + 6 * (if p.items.Some? then Kept(p.count) else 0) <= i < CELLS ==>
                cells[i] == old(cells[i])
    {
      ImageSize(p);
      hide Image, Carries;
      ghost var rest := cells[..];
      sequence := Increment(sequence);
      ghost var begun := s.(sequence := Increment(s.sequence), writes := s.writes + 1, writer := Storing(p, {}));
      assert Begin(s, begun, p);
      trace := StoreImage(p, begun, [s, begun]);
      sequence := Increment(sequence);
      ghost var now := trace[|trace| - 1];
      ghost var done := now.(sequence := Increment(now.sequence), writes := now.writes + 1, writer := Resting,
                             log := now.log + [p]);
      assert Finish(now, done);
      WriterTraceExtend(trace, done);
      assert (trace + [done])[0] == [s, begun][0];
      trace := trace + [done];
      ImageCarries(p, cells[..]);
      Unstored(p, rest, cells[..]);
    }

    /** A publication followed by an undisturbed read: any count of attempts is enough, and what comes out
        is what went in. */
    method PublishThenRead(p: Publication, maxRetries: int, other: WriterThread, ghost s: State)
      returns (ok: bool, out: seq<UInt32>)
      requires p.Valid() && Shows(s) && WriterInv(s) && s.writer.Resting? && s.reader.Away? && other.writer == Resting
      modifies this, cells, other
      ensures ok <==> maxRetries >= 0
      ensures ok ==> Carries(out, p)
    {
      hide Image, GaveUp, Carries;
      ghost var trace := Publish(p, s);
      assert trace != [];
      hide WriterTrace;
      assert sequence % 2 == 0;
      CarriesIsUsable(cells[..], p);
      hide Usable, Trace;
      ghost var more;
      ok, out, more := Read(maxRetries, other, [], trace[|trace| - 1]);
    }

    /** `read`, with the writer's thread doing what it likes before every load: in each case the
        routine and the writer together make a run of the protocol, in which a success is one of its
        reads. Undisturbed, the first attempt on an even counter decides. */
    method Read(maxRetries: int, other: WriterThread, acts: seq<seq<Act>>, ghost s: State)
      returns (ok: bool, out: seq<UInt32>, ghost trace: seq<State>)
      requires Shows(s) && s.reader.Away? && s.writer == other.writer
      modifies this, cells, other
      ensures Trace(trace) && trace[0] == s && Shows(trace[|trace| - 1])
      ensures var t := trace[|trace| - 1];
        && t.reader.Away? && t.writer == other.writer
        && t.successes == if ok then s.successes + [Success(|t.log|, out)] else s.successes
      ensures !ok && maxRetries >= 0 ==> |trace| > 1 && GaveUp(trace[|trace| - 2], maxRetries)
      ensures Quiet(acts) ==>
        && sequence == old(sequence) && cells[..] == old(cells[..])
        && (ok <==> maxRetries >= 0 && sequence % 2 == 0 && Usable(cells[..])) && (ok ==> out == cells[..])
    {
      ok, out, trace := false, [], [s];
      if maxRetries < 0 { return; }
      var retries: nat, loads := maxRetries, 0;
      ghost var now := s.(reader := Trying(0, retries));
      assert ReaderStep(s, now);
      trace := [s, now];
      for attempt := 0 to retries + 1
        invariant Trace(trace) && trace[0] == s && trace[|trace| - 1] == now && Shows(now)
        invariant now.reader == (if attempt <= retries then Trying(attempt, retries) else Away)
        invariant now.writer == other.writer && now.successes == s.successes && !ok
        invariant attempt > 0 ==> |trace| > 1 && GaveUp(trace[|trace| - 2], attempt - 1)
        invariant Quiet(acts) ==>
          sequence == old(sequence) && cells[..] == old(cells[..]) && (attempt > 0 ==> sequence % 2 == 1)
      {
        hide Trace, ReaderStep, WriterStep, Quiet, Acceptable, Usable, Failed, GaveUp, Shows;
        var decided: bool;
        decided, ok, out, loads, trace := Attempt(attempt, retries, other, acts, loads, trace);
        now := trace[|trace| - 1];
        if !ok { FailedGivesUp(trace[|trace| - 2], attempt, decided, if decided then retries else attempt); }
        if decided { return; }
      }
    }

    /** One attempt: the counter, the copy, the counter again. */
    method Attempt(attempt: nat, retries: nat, other: WriterThread, acts: seq<seq<Act>>, n: nat,
                   ghost before: seq<State>)
      returns (decided: bool, ok: bool, out: seq<UInt32>, loads: nat, ghost trace: seq<State>)
      requires Trace(before) && Shows(before[|before| - 1]) && before[|before| - 1].writer == other.writer
      requires before[|before| - 1].reader == Trying(attempt, retries)
      modifies this, cells, other
      ensures Trace(trace) && before <= trace && Shows(trace[|trace| - 1])
      ensures trace[|trace| - 1].writer == other.writer
      ensures AttemptEnds(before[|before| - 1], trace, attempt, retries, decided, ok, out)
      ensures Quiet(acts) ==>
        && sequence == old(sequence) && cells[..] == old(cells[..]) && (decided <==> sequence % 2 == 0)
        && (decided ==> (ok <==> Usable(cells[..])) && out == cells[..])
    {
      assert before != [];
      hide Trace, Quiet, Acceptable, Usable, ReaderStep, WriterStep, AttemptEnds, Shows, At, NextAttempt;
      decided, ok, out := false, false, [];
      var first;
      first, trace := Look(other, At(acts, n), before);
      ghost var now := trace[|trace| - 1];
      if first % 2 != 0 {
        loads := n + 1;
        trace := EndOdd(before[|before| - 1], trace, attempt, retries);
        ShownStill(now, trace[|trace| - 1]);
      } else {
        loads := n + CELLS + 2;
        trace := BeginCopy(trace, attempt, retries);
        ShownStill(now, trace[|trace| - 1]);
        decided, ok, out, trace := CopyAndCheck(attempt, retries, first, other, acts, n + 1, trace,
          before[|before| - 1]);
      }
    }

    /** One load of the counter, after whatever the writer does before it. */
    method Look(other: WriterThread, acts: seq<Act>, ghost before: seq<State>)
      returns (value: UInt32, ghost trace: seq<State>)
      requires Trace(before) && Shows(before[|before| - 1]) && before[|before| - 1].writer == other.writer
      modifies this, cells, other
      ensures Trace(trace) && before <= trace && Shows(trace[|trace| - 1]) && value == trace[|trace| - 1].sequence
      ensures var s, t := before[|before| - 1], trace[|trace| - 1];
        t.writer == other.writer && t.reader == s.reader && t.successes == s.successes
      ensures acts == [] ==> value == sequence == old(sequence) && cells[..] == old(cells[..])
    {
      assert before != [];
      hide Trace;
      trace := other.Run(acts, this, before);
      value := sequence;
    }

    /** The copy, the counter again, and the verdict on what was copied. */
    method CopyAndCheck(attempt: nat, retries: nat, first: UInt32, other: WriterThread, acts: seq<seq<Act>>, n: nat,
                        ghost before: seq<State>, ghost s: State)
      returns (decided: bool, ok: bool, out: seq<UInt32>, ghost trace: seq<State>)
      requires Trace(before) && Shows(before[|before| - 1]) && before[|before| - 1].writer == other.writer
      requires var b := before[|before| - 1];
        && b.reader.Copying? && |b.reader.out| == CELLS && b.successes == s.successes
        && b.reader.attempt == attempt && b.reader.retries == retries && b.reader.before == first
      modifies this, cells, other
      ensures Trace(trace) && before <= trace && Shows(trace[|trace| - 1]) && trace[|trace| - 1].writer == other.writer
      ensures AttemptEnds(s, trace, attempt, retries, decided, ok, out)
      ensures Quiet(acts) ==>
        && sequence == old(sequence) && cells[..] == old(cells[..]) && (decided <==> sequence == first)
        && (decided ==> (ok <==> Usable(cells[..])) && out == cells[..])
    {
      assert before != [];
      hide Trace, Quiet, Acceptable, Usable, ReaderStep, WriterStep, AttemptEnds, Shows, At, NextAttempt;
      trace, out := CopyOut(other, acts, n, before);
      var second;
      second, trace := Look(other, At(acts, n + CELLS), trace);
      ghost var now := trace[|trace| - 1];
      decided := first == second;
      ok := decided && Usable(out);
      trace := EndCheck(s, trace, attempt, retries, decided, ok, out);
      ShownStill(now, trace[|trace| - 1]);
    }

    lemma ShownStill(s: State, t: State)
      requires Shows(s) && SameShared(s, t)
      ensures Shows(t)
    {
    }

    /** The memcpy of one attempt, one copy step per cell. */
    method CopyOut(other: WriterThread, acts: seq<seq<Act>>, n: nat, ghost before: seq<State>)
      returns (ghost trace: seq<State>, out: seq<UInt32>)
      requires Trace(before) && Shows(before[|before| - 1]) && before[|before| - 1].writer == other.writer
      requires before[|before| - 1].reader.Copying? && |before[|before| - 1].reader.out| == CELLS
      modifies this, cells, other
      ensures Trace(trace) && before <= trace && Shows(trace[|trace| - 1])
      ensures var s, t := before[|before| - 1], trace[|trace| - 1];
        && AllCopied(t) && t.reader == s.reader.(copied := t.reader.copied, out := out)
        && t.writer == other.writer && t.successes == s.successes
      ensures Quiet(acts) ==> sequence == old(sequence) && cells[..] == old(cells[..]) && out == cells[..]
    {
      ghost var s := before[|before| - 1];
      ghost var now := s;
      out, trace := [], before;
      for i := 0 to CELLS
        invariant Trace(trace) && before <= trace && trace[|trace| - 1] == now && Shows(now)
        invariant now.writer == other.writer && now.successes == s.successes && now.reader.Copying?
        invariant now.reader == s.reader.(copied := now.reader.copied, out := now.reader.out)
        invariant |now.reader.out| == CELLS && now.reader.out[..i] == out
        invariant forall k :: 0 <= k < i ==> k in now.reader.copied
        invariant Quiet(acts) ==> sequence == old(sequence) && cells[..] == old(cells[..]) && out == cells[..i]
      {
        hide Trace, ReaderStep, WriterStep, Quiet;
        trace := other.Run(At(acts, n + i), this, trace);
        now := trace[|trace| - 1];
        out := out + [cells[i]];
        ghost var next := now.(reader := now.reader.(copied := now.reader.copied + {i},
                                                     out := now.reader.out[i := now.cells[i]]));
        CopyOne(now, next, i);
        TraceExtend(trace, next);
        trace, now := trace + [next], next;
      }
      assert now.reader.out[..CELLS] == now.reader.out;
    }
  }

  lemma OddCounter(s: State, t: State)
    requires s.reader.Trying? && s.sequence % 2 == 1
      && t == s.(reader := NextAttempt(s.reader.attempt, s.reader.retries))
    ensures Step(s, t)
  {
  }

  lemma EvenCounter(s: State, t: State, junk: seq<UInt32>)
    requires StartCopy(s, t, junk)
    ensures Step(s, t)
  {
  }

  lemma CopyOne(s: State, t: State, i: int)
    requires CopyCell(s, t, i)
    ensures Step(s, t)
  {
  }

  lemma CounterAgain(s: State, t: State)
    requires Check(s, t)
    ensures Step(s, t)
  {
  }

  /** The trace that a call of `Read` leaves behind carries a run on. */
  lemma TraceExtendsRun(run: seq<State>, trace: seq<State>)
    requires IsRun(run) && Trace(trace) && trace[0] == run[|run| - 1]
    requires forall i :: 0 <= i < |trace| ==> NoWrapAround(trace[i])
    ensures IsRun(run + trace[1..])
  {
    hide Step, NoWrapAround, Init;
    var all := run + trace[1..];
    forall i | 0 <= i < |all| - 1 ensures Step(all[i], all[i + 1]) && NoWrapAround(all[i]) {
      if i < |run| - 1 {
        assert all[i] == run[i] && all[i + 1] == run[i + 1];
      } else {
        var j := i - (|run| - 1);
        assert all[i] == trace[j] && all[i + 1] == trace[j + 1];
      }
    }
  }

  /** So whatever the writer does meanwhile, a call that returns true has delivered the count, the
      capture time and the detections of one completed publication. */
  lemma ReadIsAtomic(run: seq<State>, trace: seq<State>, out: seq<UInt32>)
    requires IsRun(run) && Trace(trace) && trace[0] == run[|run| - 1]
    requires forall i :: 0 <= i < |trace| ==> NoWrapAround(trace[i])
    requires var t := trace[|trace| - 1]; t.successes == run[|run| - 1].successes + [Success(|t.log|, out)]
    ensures var log := trace[|trace| - 1].log;
      log != [] && Carries(out, log[|log| - 1])
  {
    assert run != [] && trace != [];
    hide IsRun, Trace, NoWrapAround, Image, Carries;
    TraceExtendsRun(run, trace);
    var all, t := run + trace[1..], trace[|trace| - 1];
    assert all[|all| - 1] == t;
    SnapshotsAreAtomic(all, |all| - 1, |t.successes| - 1);
  }

  /** The first `n` cells of `image` followed by the rest of `rest`. */
  ghost function Spliced(image: seq<UInt32>, rest: seq<UInt32>, n: nat): (r: seq<UInt32>)
    requires n <= |image| <= |rest|
    ensures |r| == |rest|
  {
    image[..n] + rest[n..]
  }

  lemma SpliceEnds(image: seq<UInt32>, rest: seq<UInt32>)
    requires |image| <= |rest|
    ensures Spliced(image, rest, 0) == rest && Spliced(image, rest, |image|) == image + rest[|image|..]
  {
  }

  lemma SpliceStep(image: seq<UInt32>, rest: seq<UInt32>, n: nat)
    requires n < |image| <= |rest|
    ensures Spliced(image, rest, n)[n := image[n]] == Spliced(image, rest, n + 1)
  {
  }

  lemma StoreExtend(trace: seq<State>, t: State, i: int)
    requires WriterTrace(trace) && StoreCell(trace[|trace| - 1], t, i)
    ensures WriterTrace(trace + [t])
  {
    WriterTraceExtend(trace, t);
  }
}
