/** Why the seqlock needs its bound: with 2^31 publications inside one read attempt the counter comes
    round, and the read can return a message that nobody ever published. */
module SeqlockWrap {
  import opened SafetyMessage
  import opened Wrappers

  /** Steps of the two parties lead from `s` to `t`, with no bound on anything. */
  ghost predicate Reaches(s: State, t: State)
  {
    exists trace: seq<State> :: Trace(trace) && trace[0] == s && trace[|trace| - 1] == t
  }

  lemma OneStep(s: State, t: State)
    requires Step(s, t)
    ensures Reaches(s, t)
  {
    hide Step;
    var trace := [s, t];
    assert Trace(trace) && trace[0] == s && trace[|trace| - 1] == t;
  }

  lemma NoStep(s: State)
    ensures Reaches(s, s)
  {
    var trace := [s];
    assert Trace(trace) && trace[0] == s && trace[|trace| - 1] == s;
  }

  lemma Joined(a: State, b: State, c: State)
    requires Reaches(a, b) && Reaches(b, c)
    ensures Reaches(a, c)
  {
    hide Step;
    var p: seq<State> :| Trace(p) && p[0] == a && p[|p| - 1] == b;
    var q: seq<State> :| Trace(q) && q[0] == b && q[|q| - 1] == c;
    var all := p + q[1..];
    forall i, j | 0 <= i && j == i + 1 < |all| ensures Step(all[i], all[j]) {
      if j < |p| {
        assert all[i] == p[i] && all[j] == p[j];
      } else {
        var k := i - (|p| - 1);
        assert all[i] == q[k] && all[j] == q[k + 1];
      }
    }
    assert Trace(all) && all[0] == a && all[|all| - 1] == c;
  }

  /** The positions from `a` to `b`. */
  function Range(a: int, b: int): (r: set<int>)
    ensures forall i :: i in r <==> a <= i < b
    decreases b - a
  {
    if a >= b then {} else Range(a, b - 1) + {b - 1}
  }

  // ---------------------------------------------------------------- the writer

  /** The first `n` cells stored. */
  ghost function Stored(s: State, p: Publication, n: nat): State
    requires p.Valid() && n <= |Image(p)| <= |s.cells|
  {
    s.(cells := Spliced(Image(p), s.cells, n), writer := Storing(p, Range(0, n)))
  }

  lemma {:induction false} StoresReach(s: State, p: Publication, n: nat)
    requires p.Valid() && n <= |Image(p)| && |s.cells| == CELLS && s.writer == Storing(p, {})
    ensures Reaches(s, Stored(s, p, n))
  {
    hide Image, Reaches, Spliced;
    if n == 0 {
      SpliceEnds(Image(p), s.cells);
      NoStep(s);
    } else {
      var a, b := Stored(s, p, n - 1), Stored(s, p, n);
      StoresReach(s, p, n - 1);
      SpliceStep(Image(p), s.cells, n - 1);
      assert StoreCell(a, b, n - 1);
      OneStep(a, b);
      Joined(s, a, b);
    }
  }

  /** One whole publication. */
  ghost function Written(s: State, p: Publication): State
    requires p.Valid() && |s.cells| == CELLS
  {
    s.(sequence := (s.sequence + 2) % MODULUS, cells := Image(p) + s.cells[|Image(p)|..],
       writes := s.writes + 2, log := s.log + [p])
  }

  lemma PublishReaches(s: State, p: Publication)
    requires p.Valid() && |s.cells| == CELLS && s.writer.Resting?
    ensures Reaches(s, Written(s, p))
  {
    hide Image, Reaches, Spliced;
    var begun := s.(sequence := Increment(s.sequence), writes := s.writes + 1, writer := Storing(p, {}));
    assert Begin(s, begun, p);
    OneStep(s, begun);
    var n := |Image(p)|;
    StoresReach(begun, p, n);
    var stored := Stored(begun, p, n);
    Joined(s, begun, stored);
    SpliceEnds(Image(p), s.cells);
    assert Finish(stored, Written(s, p));
    OneStep(stored, Written(s, p));
    Joined(s, stored, Written(s, p));
  }

  /** `p` is all that has been published between `s` and `t`, `n` times. */
  ghost predicate PublishedTimes(s: State, t: State, p: Publication, n: nat)
    requires p.Valid()
  {
    && t.sequence == (s.sequence + 2 * n) % MODULUS && t.writes == s.writes + 2 * n
    && |t.cells| == CELLS && (n > 0 ==> Image(p) <= t.cells) && t.writer.Resting? && t.reader == s.reader
    && t.successes == s.successes && |t.log| == |s.log| + n && forall q :: q in t.log ==> q in s.log || q == p
  }

  lemma {:induction false} ManyReach(s: State, p: Publication, n: nat) returns (t: State)
    requires p.Valid() && |s.cells| == CELLS && s.writer.Resting?
    ensures Reaches(s, t) && PublishedTimes(s, t, p, n)
  {
    hide Image, Reaches;
    if n == 0 {
      t := s;
      NoStep(s);
    } else {
      var before := ManyReach(s, p, n - 1);
      t := Written(before, p);
      PublishReaches(before, p);
      Joined(s, before, t);
      TwoMore(s.sequence, n);
    }
  }

  lemma TwoMore(sequence: int, n: int)
    ensures ((sequence + 2 * (n - 1)) % MODULUS + 2) % MODULUS == (sequence + 2 * n) % MODULUS
  {
  }

  // ---------------------------------------------------------------- the reader

  /** The cells from `a` to `b` copied. */
  ghost function CopiedTo(s: State, a: nat, b: nat): State
    requires s.reader.Copying? && a <= b <= CELLS && |s.cells| == CELLS && |s.reader.out| == CELLS
  {
    var r := s.reader;
    s.(reader := r.(copied := r.copied + Range(a, b), out := r.out[..a] + s.cells[a..b] + r.out[b..]))
  }

  lemma {:induction false} CopiesReach(s: State, a: nat, b: nat)
    requires s.reader.Copying? && a <= b <= CELLS && |s.cells| == CELLS && |s.reader.out| == CELLS
    ensures Reaches(s, CopiedTo(s, a, b))
  {
    hide Reaches;
    if a == b {
      assert CopiedTo(s, a, b).reader.out == s.reader.out;
      assert CopiedTo(s, a, b) == s;
      NoStep(s);
    } else {
      CopiesReach(s, a, b - 1);
      var p, q := CopiedTo(s, a, b - 1), CopiedTo(s, a, b);
      assert q.reader.out == p.reader.out[b - 1 := s.cells[b - 1]];
      assert CopyCell(p, q, b - 1);
      OneStep(p, q);
      Joined(s, p, q);
    }
  }

  // ---------------------------------------------------------------- the torn read

  const FIRST := Publication(None, 0, 1, 1)
  const SECOND := Publication(None, 0, 2, 2)

  const BLANK := State(0, seq(CELLS, _ => 0), Resting, Away, 0, [], [])

  lemma BlankIsInitial()
    ensures Init(BLANK) && |BLANK.cells| == CELLS
  {
  }

  /** The first publication is out and a read with one attempt has copied its first four cells. */
  lemma HalfRead() returns (s: State)
    ensures Reaches(BLANK, s) && s.writer.Resting? && s.reader.Copying? && s.log == [FIRST]
    ensures |s.cells| == CELLS && |s.reader.out| == CELLS && s.reader.before == s.sequence
    ensures (forall i :: 0 <= i < 4 ==> i in s.reader.copied) && s.reader.out[..4] == Image(FIRST)[..4]
  {
    hide Reaches, BLANK;
    BlankIsInitial();
    PublishReaches(BLANK, FIRST);
    var a := Written(BLANK, FIRST);
    var b := a.(reader := Trying(0, 0));
    assert ReaderStep(a, b);
    OneStep(a, b);
    Joined(BLANK, a, b);
    var c := b.(reader := Copying(0, 0, b.sequence, b.writes, {}, b.cells));
    EvenStart(b, c);
    OneStep(b, c);
    Joined(BLANK, b, c);
    s := CopiedTo(c, 0, 4);
    CopiesReach(c, 0, 4);
    Joined(BLANK, c, s);
    assert s.reader.out[..4] == c.cells[..4];
  }

  lemma EvenStart(s: State, t: State)
    requires s.reader.Trying? && s.sequence % 2 == 0 && |s.cells| == CELLS
    requires t == s.(reader := Copying(s.reader.attempt, s.reader.retries, s.sequence, s.writes, {}, s.cells))
    ensures Step(s, t)
  {
    assert StartCopy(s, t, s.cells);
  }

  /** No completed publication has this capture time. */
  predicate Torn(s: State, r: Success)
  {
    |r.out| == CELLS && forall p :: p in s.log ==> !(r.out[3] == p.timeLow && r.out[4] == p.timeHigh)
  }

  /** The bound on publications per attempt cannot be dropped: 2^31 of them bring the counter back to
      where it was, and the read returns true with one publication's lower and another one's upper half
      of the capture time. */
  lemma WrapAroundTears()
    ensures exists s: State, r: Success :: Reaches(BLANK, s) && r in s.successes && Torn(s, r)
  {
    hide Reaches, BLANK;
    var a := HalfRead();
    var b := ManyReach(a, SECOND, 0x8000_0000);
    Joined(BLANK, a, b);
    assert b.sequence == a.sequence;
    CopiesReach(b, 4, CELLS);
    var c := CopiedTo(b, 4, CELLS);
    Joined(BLANK, b, c);
    var out := c.reader.out;
    assert out == b.reader.out[..4] + b.cells[4..];
    assert out[..4] == Image(FIRST)[..4] && out[4] == Image(SECOND)[4];
    assert out[0] == MESSAGE_MAGIC && out[1] == MESSAGE_VERSION && out[2] == 0 && out[3] == 1 && out[4] == 2;
    var r := Success(|c.log|, out);
    var d := c.(reader := Away, successes := c.successes + [r]);
    LastCheck(c, d);
    OneStep(c, d);
    Joined(BLANK, c, d);
    assert r in d.successes;
    assert Torn(d, r);
  }

  lemma LastCheck(s: State, t: State)
    requires AllCopied(s) && s.sequence == s.reader.before && Acceptable(s.reader.out)
    requires t == s.(reader := Away, successes := s.successes + [Success(|s.log|, s.reader.out)])
    ensures Step(s, t)
  {
    assert Check(s, t);
  }
}
