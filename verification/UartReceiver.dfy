/** The resynchronising receiver of uart_safety_receiver.py and the offline scan of rawuart.py. */
module UartReceiver {
  import opened SafetyJudge
  import opened UartFrame

  const STOP := 2

  /** What is published for a frame's state byte: anything undefined stops the robot. */
  function SafeState(b: Octet): (s: int)
    ensures if b == 0 then s == 0 else if b == 1 then s == 1 else s == 2
  {
    if b == 0 || b == 1 || b == 2 then b as int else STOP
  }

  predicate FrameAt(buffer: seq<Octet>, i: nat)
    requires i + 3 <= |buffer|
  {
    buffer[i] == MAGIC && Crc(buffer[i..i + 2]) == buffer[i + 2]
  }

  /** The state bytes found by scanning, and the bytes left over. */
  datatype Scanned = Scanned(rest: seq<Octet>, states: seq<Octet>)

  function Scan(buffer: seq<Octet>): (r: Scanned)
    ensures |r.rest| <= 2 && 3 * |r.states| + |r.rest| <= |buffer|
  {
    if |buffer| < 3 then Scanned(buffer, [])
    else if FrameAt(buffer, 0) then
      var r := Scan(buffer[3..]);
      r.(states := [buffer[1]] + r.states)
    else Scan(buffer[1..])
  }

  function Published(states: seq<Octet>): (p: seq<int>)
    ensures |p| == |states|
  {
    seq(|states|, i requires 0 <= i < |states| => SafeState(states[i]))
  }

  /** Concatenation of what arrives between polls. */
  function Joined(chunks: seq<seq<Octet>>): seq<Octet>
  {
    if chunks == [] then [] else Joined(chunks[..|chunks| - 1]) + chunks[|chunks| - 1]
  }

  lemma PublishedConcat(a: seq<Octet>, b: seq<Octet>)
    ensures Published(a + b) == Published(a) + Published(b)
  {
    hide SafeState;
  }

  lemma PublishedOne(a: seq<Octet>, b: Octet)
    ensures Published(a + [b]) == Published(a) + [SafeState(b)]
  {
    hide SafeState;
  }

  lemma ScanShort(buffer: seq<Octet>)
    requires |buffer| < 3
    ensures Scan(buffer) == Scanned(buffer, [])
  {
  }

  lemma ScanHit(buffer: seq<Octet>)
    requires |buffer| >= 3 && FrameAt(buffer, 0)
    ensures Scan(buffer) == Scanned(Scan(buffer[3..]).rest, [buffer[1]] + Scan(buffer[3..]).states)
  {
  }

  lemma ScanMiss(buffer: seq<Octet>)
    requires |buffer| >= 3 && !FrameAt(buffer, 0)
    ensures Scan(buffer) == Scan(buffer[1..])
  {
  }

  class Receiver {
    var buffer: seq<Octet>
    var published: seq<int>

    constructor ()
      ensures buffer == [] && published == []
    {
      buffer, published := [], [];
    }

    /** One poll with what the port has ready. */
    method Poll(waiting: seq<Octet>)
      modifies this
      ensures buffer == Scan(old(buffer) + waiting).rest
      ensures published == old(published) + Published(Scan(old(buffer) + waiting).states)
    {
      hide Crc, Joined, Published, SafeState, Scan;
      buffer := buffer + waiting;
      ghost var states: seq<Octet> := [];
      ghost var all := Scan(buffer);
      assert Published(states) == [] by { PublishedConcat(states, states); }
      while |buffer| >= 3
        invariant all == Scanned(Scan(buffer).rest, states + Scan(buffer).states)
        invariant published == old(published) + Published(states)
        decreases |buffer|
      {
        assert buffer[0..2] == buffer[..2];
        if buffer[0] != MAGIC {
          ScanMiss(buffer);
          buffer := buffer[1..];
          continue;
        }
        var state, receivedCrc := buffer[1], buffer[2];
        var crc := Crc8(buffer[..2]);
        if crc != receivedCrc {
          ScanMiss(buffer);
          buffer := buffer[1..];
          continue;
        }
        ScanHit(buffer);
        buffer := buffer[3..];
        published := published + [SafeState(state)];
        PublishedOne(states, state);
        states := states + [state];
      }
      ScanShort(buffer);
      assert all.states == states;
    }
  }

  /** What is found before position `i` and what is still to come are the whole scan. */
  ghost predicate ScannedTo(buf: seq<Octet>, i: nat, found: seq<Octet>)
  {
    i <= |buf| && Scan(buf) == Scanned(Scan(buf[i..]).rest, found + Scan(buf[i..]).states)
  }

  lemma ScannedStep(buf: seq<Octet>, i: nat, found: seq<Octet>)
    requires i + 3 <= |buf| && ScannedTo(buf, i, found)
    ensures if FrameAt(buf, i) then ScannedTo(buf, i + 3, found + [buf[i + 1]]) else ScannedTo(buf, i + 1, found)
  {
    hide Crc, Scan;
    var u := buf[i..];
    assert u[0..2] == buf[i..i + 2] && u[1..] == buf[i + 1..] && u[3..] == buf[i + 3..];
    if FrameAt(u, 0) { ScanHit(u); } else { ScanMiss(u); }
  }

  /** The state counts and the discarded bytes of rawuart.py over a whole capture. */
  method OfflineScan(buf: seq<Octet>) returns (ok: nat, bad: nat, states: multiset<Octet>)
    ensures states == multiset(Scan(buf).states) && ok == |Scan(buf).states|
    ensures 3 * ok + bad + |Scan(buf).rest| == |buf|
  {
    hide Crc, Scan;
    ok, bad, states := 0, 0, multiset{};
    var i := 0;
    ghost var found: seq<Octet> := [];
    assert buf[0..] == buf;
    while i + 3 <= |buf|
      invariant 0 <= i <= |buf| && i == 3 * ok + bad
      invariant ok == |found| && states == multiset(found)
      invariant ScannedTo(buf, i, found)
    {
      hide ScannedTo;
      ScannedStep(buf, i, found);
      if buf[i] != MAGIC {
        bad, i := bad + 1, i + 1;
        continue;
      }
      var crc := Crc8(buf[i..i + 2]);
      if crc == buf[i + 2] {
        found := found + [buf[i + 1]];
        ok, states, i := ok + 1, states + multiset{buf[i + 1]}, i + 3;
      } else {
        bad, i := bad + 1, i + 1;
      }
    }
    ScanShort(buf[i..]);
    assert Scan(buf).states == found;
  }

  // ---------------------------------------------------------------- what a scan finds

  /** At position `p` there are a mark, a byte, and the checksum of both. */
  predicate FrameFrom(buf: seq<Octet>, p: nat)
  {
    p + 3 <= |buf| && buf[p] == 0xA5 && Crc([buf[p], buf[p + 1]]) == buf[p + 2]
  }

  /** Where the last of the frames at `ps` ends. */
  function EndOf(ps: seq<nat>): nat { if ps == [] then 0 else ps[|ps| - 1] + 3 }

  ghost predicate AllFrames(buf: seq<Octet>, ps: seq<nat>) { forall i :: 0 <= i < |ps| ==> FrameFrom(buf, ps[i]) }

  predicate Apart(ps: seq<nat>) { forall i, j :: 0 <= i < j < |ps| ==> ps[i] + 3 <= ps[j] }

  /** Every frame from position `n` on is at one of `ps` or begins inside one of these. */
  ghost predicate Covered(buf: seq<Octet>, n: nat, ps: seq<nat>)
  {
    forall q: nat :: n <= q && FrameFrom(buf, q) ==> q in ps || Inside(ps, q)
  }

  /** The frames at `ps` do not overlap and are in order, and every other frame begins inside one of
      them. */
  ghost predicate Leftmost(buf: seq<Octet>, ps: seq<nat>)
  {
    AllFrames(buf, ps) && Apart(ps) && Covered(buf, 0, ps)
  }

  ghost predicate Inside(ps: seq<nat>, q: nat) { exists i :: 0 <= i < |ps| && ps[i] < q < ps[i] + 3 }

  /** The state bytes of the frames at `ps`. */
  ghost predicate ReadsStates(buf: seq<Octet>, ps: seq<nat>, states: seq<Octet>)
  {
    |states| == |ps| && forall i :: 0 <= i < |ps| ==> ps[i] + 3 <= |buf| && states[i] == buf[ps[i] + 1]
  }

  /** The last two bytes, or fewer if a frame ends there. */
  predicate KeepsRest(buf: seq<Octet>, end: nat, rest: seq<Octet>)
  {
    var kept := if end + 2 < |buf| then |buf| - 2 else end;
    kept <= |buf| && rest == buf[kept..]
  }

  ghost predicate Reads(buf: seq<Octet>, ps: seq<nat>, r: Scanned)
  {
    ReadsStates(buf, ps, r.states) && KeepsRest(buf, EndOf(ps), r.rest)
  }

  function Later(ps: seq<nat>, n: nat): (qs: seq<nat>)
    ensures |qs| == |ps| && forall i :: 0 <= i < |ps| ==> qs[i] == ps[i] + n
  {
    seq(|ps|, i requires 0 <= i < |ps| => ps[i] + n)
  }

  lemma FrameLater(buf: seq<Octet>, n: nat, p: nat)
    requires n <= |buf|
    ensures FrameFrom(buf[n..], p) <==> FrameFrom(buf, p + n)
  {
    hide Crc;
  }

  lemma AtIsFrom(buf: seq<Octet>)
    requires |buf| >= 3
    ensures FrameAt(buf, 0) <==> FrameFrom(buf, 0)
  {
    hide Crc;
    assert buf[0..2] == [buf[0], buf[1]];
  }

  /** A scan finds the frames from left to right, whatever else the bytes contain. */
  lemma {:induction false} ScanIsLeftmost(buf: seq<Octet>) returns (ps: seq<nat>)
    ensures Leftmost(buf, ps) && Reads(buf, ps, Scan(buf))
    decreases |buf|
  {
    hide Crc, FrameFrom, Scan, FrameAt, Leftmost, Reads;
    if |buf| < 3 {
      ps := [];
      ScanShort(buf);
      NoFrames(buf);
    } else {
      AtIsFrom(buf);
      if FrameFrom(buf, 0) {
        ScanHit(buf);
        var qs := ScanIsLeftmost(buf[3..]);
        ps := [0] + Later(qs, 3);
        LeftmostHit(buf, qs);
        ReadsHit(buf, qs, Scan(buf[3..]));
      } else {
        ScanMiss(buf);
        var qs := ScanIsLeftmost(buf[1..]);
        ps := Later(qs, 1);
        LeftmostMiss(buf, qs);
        ReadsMiss(buf, qs, Scan(buf[1..]));
      }
    }
  }

  lemma NoFrames(buf: seq<Octet>)
    requires |buf| < 3
    ensures Leftmost(buf, []) && Reads(buf, [], Scanned(buf, []))
  {
    hide Crc;
  }

  /** Positions found behind the first `n` bytes, counted from the start. */
  lemma FoundLater(buf: seq<Octet>, n: nat, qs: seq<nat>)
    requires n <= |buf| && AllFrames(buf[n..], qs) && Covered(buf[n..], 0, qs)
    ensures AllFrames(buf, Later(qs, n)) && Covered(buf, n, Later(qs, n))
    ensures forall i :: 0 <= i < |qs| ==> qs[i] + 3 <= |buf| - n
  {
    forall i | 0 <= i < |qs| ensures FrameFrom(buf, Later(qs, n)[i]) && qs[i] + 3 <= |buf| - n {
      FrameLater(buf, n, qs[i]);
    }
    hide Crc;
    forall q: nat | n <= q && FrameFrom(buf, q) ensures q in Later(qs, n) || Inside(Later(qs, n), q) {
      FrameLater(buf, n, q - n);
      InsideLater(qs, n, q);
    }
  }

  lemma InsideLater(qs: seq<nat>, n: nat, q: nat)
    requires n <= q && (q - n in qs || Inside(qs, q - n))
    ensures q in Later(qs, n) || Inside(Later(qs, n), q)
  {
    var ps := Later(qs, n);
    if q - n in qs {
      var i :| 0 <= i < |qs| && qs[i] == q - n;
      assert ps[i] == q;
    } else {
      var i :| 0 <= i < |qs| && qs[i] < q - n < qs[i] + 3;
      assert ps[i] < q < ps[i] + 3;
    }
  }

  lemma LeftmostHit(buf: seq<Octet>, qs: seq<nat>)
    requires |buf| >= 3 && FrameFrom(buf, 0) && Leftmost(buf[3..], qs)
    ensures Leftmost(buf, [0] + Later(qs, 3)) && forall i :: 0 <= i < |qs| ==> qs[i] + 3 <= |buf| - 3
  {
    hide FrameFrom, Covered, AllFrames;
    FoundLater(buf, 3, qs);
    OneInFront(buf, Later(qs, 3));
  }

  lemma OneInFront(buf: seq<Octet>, ps: seq<nat>)
    requires FrameFrom(buf, 0) && AllFrames(buf, ps) && Covered(buf, 3, ps)
    ensures AllFrames(buf, [0] + ps) && Covered(buf, 0, [0] + ps)
  {
    hide FrameFrom;
    var all := [0] + ps;
    forall q: nat | FrameFrom(buf, q) ensures q in all || Inside(all, q) {
      if q < 3 {
        assert all[0] <= q < all[0] + 3;
      } else if q in ps {
        assert q in all;
      } else {
        var i :| 0 <= i < |ps| && ps[i] < q < ps[i] + 3;
        assert all[i + 1] < q < all[i + 1] + 3;
      }
    }
  }

  lemma LeftmostMiss(buf: seq<Octet>, qs: seq<nat>)
    requires |buf| >= 3 && !FrameFrom(buf, 0) && Leftmost(buf[1..], qs)
    ensures Leftmost(buf, Later(qs, 1)) && forall i :: 0 <= i < |qs| ==> qs[i] + 3 <= |buf| - 1
  {
    hide FrameFrom, AllFrames, Inside;
    FoundLater(buf, 1, qs);
  }

  lemma StatesLater(buf: seq<Octet>, n: nat, qs: seq<nat>, states: seq<Octet>)
    requires n <= |buf| && ReadsStates(buf[n..], qs, states)
    ensures ReadsStates(buf, Later(qs, n), states)
  {
    forall i | 0 <= i < |qs|
      ensures Later(qs, n)[i] + 3 <= |buf| && states[i] == buf[Later(qs, n)[i] + 1]
    {
      assert states[i] == buf[n..][qs[i] + 1];
    }
  }

  /** What is left over of the rest is left over of the whole. */
  lemma RestLater(buf: seq<Octet>, n: nat, end: nat, rest: seq<Octet>)
    requires n <= |buf| && KeepsRest(buf[n..], end, rest)
    ensures KeepsRest(buf, end + n, rest)
  {
  }

  lemma ReadsHit(buf: seq<Octet>, qs: seq<nat>, r: Scanned)
    requires |buf| >= 3 && Reads(buf[3..], qs, r)
    ensures Reads(buf, [0] + Later(qs, 3), Scanned(r.rest, [buf[1]] + r.states))
  {
    StatesLater(buf, 3, qs, r.states);
    StatesCons(buf, Later(qs, 3), r.states);
    RestLater(buf, 3, EndOf(qs), r.rest);
    assert EndOf([0] + Later(qs, 3)) == EndOf(qs) + 3;
    hide ReadsStates, KeepsRest, EndOf;
  }

  lemma StatesCons(buf: seq<Octet>, ps: seq<nat>, states: seq<Octet>)
    requires |buf| >= 3 && ReadsStates(buf, ps, states)
    ensures ReadsStates(buf, [0] + ps, [buf[1]] + states)
  {
  }

  lemma ReadsMiss(buf: seq<Octet>, qs: seq<nat>, r: Scanned)
    requires |buf| >= 3 && Reads(buf[1..], qs, r)
    ensures Reads(buf, Later(qs, 1), r)
  {
    StatesLater(buf, 1, qs, r.states);
    hide ReadsStates;
    if qs == [] {
      RestOfMiss(buf, r.rest);
    } else {
      RestLater(buf, 1, EndOf(qs), r.rest);
      assert EndOf(Later(qs, 1)) == EndOf(qs) + 1;
    }
  }

  lemma RestOfMiss(buf: seq<Octet>, rest: seq<Octet>)
    requires |buf| >= 3 && KeepsRest(buf[1..], 0, rest)
    ensures KeepsRest(buf, 0, rest)
  {
  }

  // ---------------------------------------------------------------- fragmentation

  /** Scanning what has arrived and then scanning on with the rest is scanning it all. */
  lemma {:induction false} ScanConcat(a: seq<Octet>, b: seq<Octet>)
    ensures Scan(a + b) == Scanned(Scan(Scan(a).rest + b).rest, Scan(a).states + Scan(Scan(a).rest + b).states)
  {
    hide Scan, Crc;
    if |a| >= 3 {
      assert (a + b)[0..2] == a[0..2];
      if FrameAt(a, 0) {
        ScanHit(a);
        ScanHit(a + b);
        assert (a + b)[3..] == a[3..] + b;
        ScanConcat(a[3..], b);
      } else {
        ScanMiss(a);
        ScanMiss(a + b);
        assert (a + b)[1..] == a[1..] + b;
        ScanConcat(a[1..], b);
      }
    } else {
      ScanShort(a);
    }
  }

  /** Buffer and publications after a series of polls, poll by poll. */
  function Polls(chunks: seq<seq<Octet>>): Scanned
  {
    if chunks == [] then Scanned([], [])
    else
      var before := Polls(chunks[..|chunks| - 1]);
      var now := Scan(before.rest + chunks[|chunks| - 1]);
      Scanned(now.rest, before.states + now.states)
  }

  /** However the bytes are split over polls, the receiver ends up with what one scan over all of
      them gives. */
  lemma {:induction false} FragmentationIndependent(chunks: seq<seq<Octet>>)
    ensures Polls(chunks) == Scan(Joined(chunks))
  {
    hide Scan, Crc;
    if chunks == [] {
      ScanEmpty();
    } else {
      var before := chunks[..|chunks| - 1];
      FragmentationIndependent(before);
      ScanConcat(Joined(before), chunks[|chunks| - 1]);
    }
  }

  lemma ScanEmpty()
    ensures Scan([]) == Scanned([], [])
  {
  }

  /** A poll loop over any fragmentation publishes what the offline scan finds. */
  method RunPolls(chunks: seq<seq<Octet>>) returns (published: seq<int>)
    ensures published == Published(Scan(Joined(chunks)).states)
  {
    hide Scan, Crc;
    var r := new Receiver();
    for i := 0 to |chunks|
      invariant r.buffer == Polls(chunks[..i]).rest && r.published == Published(Polls(chunks[..i]).states)
    {
      assert chunks[..i + 1][..i] == chunks[..i];
      ghost var before, now := Polls(chunks[..i]), Scan(r.buffer + chunks[i]);
      r.Poll(chunks[i]);
      assert Published(before.states + now.states) == Published(before.states) + Published(now.states);
    }
    assert chunks[..|chunks|] == chunks;
    FragmentationIndependent(chunks);
    published := r.published;
  }

  // ---------------------------------------------------------------- resynchronisation

  function Frames(ss: seq<State>): seq<Octet>
  {
    if ss == [] then [] else Frame(ss[0]) + Frames(ss[1..])
  }

  function Levels(ss: seq<State>): (p: seq<int>)
    ensures |p| == |ss|
  {
    seq(|ss|, i requires 0 <= i < |ss| => Level(ss[i]))
  }

  lemma FrameBytes(s: State)
    ensures var f := Frame(s);
      && f[0] == MAGIC && f[1] != MAGIC && f[2] != MAGIC && SafeState(f[1]) == Level(s)
      && Crc([f[0], f[1]]) == f[2]
  {
    hide Rounds8, Xor, Crc;
    CrcOfTwo(MAGIC, Frame(s)[1]);
    FrameCrcNotMagic();
  }

  /** The three frames, byte by byte. */
  lemma FramesAre()
    ensures Frame(Clear) == [0xA5, 0, 0x59] && Frame(Slow) == [0xA5, 1, 0x5E] && Frame(Stop) == [0xA5, 2, 0x57]
  {
    hide Crc;
    FrameCrcs();
  }

  lemma FrameCrcs()
    ensures Crc([MAGIC, 0]) == 0x59 && Crc([MAGIC, 1]) == 0x5E && Crc([MAGIC, 2]) == 0x57
  {
    hide Crc, Rounds8, Xor;
    CrcOfTwo(MAGIC, 0);
    CrcOfTwo(MAGIC, 1);
    CrcOfTwo(MAGIC, 2);
    CrcValues();
  }

  lemma CrcValues()
    ensures Rounds8(Xor(Rounds8(Xor(0, MAGIC)), 0)) == 0x59
    ensures Rounds8(Xor(Rounds8(Xor(0, MAGIC)), 1)) == 0x5E
    ensures Rounds8(Xor(Rounds8(Xor(0, MAGIC)), 2)) == 0x57
  {
  }

  lemma CrcOfTwo(a: Octet, b: Octet)
    ensures Crc([a, b]) == Rounds8(Xor(Rounds8(Xor(0, a)), b))
  {
    hide Rounds8, Xor;
    assert [a, b][..1] == [a] && [a][..0] == [];
    assert Crc([a]) == Rounds8(Xor(Crc([]), a));
  }

  lemma FrameCrcNotMagic()
    ensures Rounds8(Xor(Rounds8(Xor(0, MAGIC)), 0)) != MAGIC
    ensures Rounds8(Xor(Rounds8(Xor(0, MAGIC)), 1)) != MAGIC
    ensures Rounds8(Xor(Rounds8(Xor(0, MAGIC)), 2)) != MAGIC
  {
  }

  /** An undisturbed stream is decoded frame by frame. */
  lemma {:induction false} ScanFrames(ss: seq<State>)
    ensures Scan(Frames(ss)).rest == [] && Published(Scan(Frames(ss)).states) == Levels(ss)
  {
    hide Crc, Frame;
    if ss != [] {
      var f, t := Frame(ss[0]), Frames(ss[1..]);
      FrameBytes(ss[0]);
      assert (f + t)[0..2] == [f[0], f[1]];
      assert (f + t)[3..] == t;
      ScanFrames(ss[1..]);
      assert Levels(ss) == [Level(ss[0])] + Levels(ss[1..]);
      var r := Scan(t).states;
      assert Published([f[1]] + r) == [SafeState(f[1])] + Published(r);
    }
  }

  predicate IsFrame(f: seq<Octet>)
  {
    |f| == 3 && f[0] == MAGIC && f[1] != MAGIC && f[2] != MAGIC && Crc([f[0], f[1]]) == f[2]
  }

  lemma SkipByte(y: Octet, t: seq<Octet>)
    requires y != MAGIC
    ensures Scan([y] + t).states == Scan(t).states
  {
    hide Crc, Scan;
    if |t| >= 2 {
      ScanMiss([y] + t);
      assert ([y] + t)[1..] == t;
    } else {
      ScanShort([y] + t);
      ScanShort(t);
    }
  }

  lemma FalseState(y: Octet)
    requires Crc([MAGIC, y]) == MAGIC
    ensures SafeState(y) == STOP
  {
    hide Rounds8, Xor, Crc;
    CrcOfTwo(MAGIC, y);
    FrameCrcNotMagic();
  }

  lemma ScanFrom0(f: seq<Octet>, t: seq<Octet>)
    requires IsFrame(f)
    ensures Scan(f + t).states == [f[1]] + Scan(t).states
  {
    hide Crc, Scan;
    var u := f + t;
    assert u[0..2] == [f[0], f[1]] && u[3..] == t;
    ScanHit(u);
  }

  /** One stray byte in front: if it opens a false frame, the frame's magic is taken for a state. */
  lemma ScanFrom1(x: Octet, f: seq<Octet>, t: seq<Octet>)
    requires IsFrame(f)
    ensures var r := Scan([x] + f + t).states; r == [f[1]] + Scan(t).states || r == [MAGIC] + Scan(t).states
  {
    hide Crc, Scan;
    var u := [x] + f + t;
    assert u[0..2] == [x, f[0]] && u[1..] == f + t && u[3..] == [f[2]] + t;
    if FrameAt(u, 0) {
      ScanHit(u);
      SkipByte(f[2], t);
    } else {
      ScanMiss(u);
      ScanFrom0(f, t);
    }
  }

  /** Two stray bytes in front: the frame's magic may be taken for a checksum. */
  lemma ScanFrom2(x: Octet, y: Octet, f: seq<Octet>, t: seq<Octet>)
    requires IsFrame(f)
    ensures var r := Scan([x, y] + f + t).states;
      r == [f[1]] + Scan(t).states || exists b: Octet :: SafeState(b) == STOP && r == [b] + Scan(t).states
  {
    hide Crc, Scan, SafeState;
    var u := [x, y] + f + t;
    assert u[0..2] == [x, y] && u[1..] == [y] + f + t && u[3..] == [f[1]] + ([f[2]] + t);
    if FrameAt(u, 0) {
      ScanHit(u);
      SkipByte(f[1], [f[2]] + t);
      SkipByte(f[2], t);
      FalseState(y);
    } else {
      ScanMiss(u);
      ScanFrom1(y, f, t);
      MagicStops();
    }
  }

  lemma MagicStops()
    ensures SafeState(MAGIC) == STOP
  {
  }

  /** Up to two left-over bytes in front of a genuine frame: either the frame is found, or a false
      frame overlaps it, which can only publish STOP, and the scan is in step again behind it. */
  lemma ScanIntoFrame(rest: seq<Octet>, f: seq<Octet>, t: seq<Octet>)
    requires |rest| <= 2 && IsFrame(f)
    ensures var r := Scan(rest + f + t).states;
      r == [f[1]] + Scan(t).states || exists b: Octet :: SafeState(b) == STOP && r == [b] + Scan(t).states
  {
    hide Crc, Scan, SafeState;
    MagicStops();
    if |rest| == 0 {
      assert rest + f + t == f + t;
      ScanFrom0(f, t);
    } else if |rest| == 1 {
      assert rest == [rest[0]];
      ScanFrom1(rest[0], f, t);
    } else {
      assert rest == [rest[0], rest[1]];
      ScanFrom2(rest[0], rest[1], f, t);
    }
  }

  /** After any garbage at most the first of the frames that follow is lost, and then a STOP is
      published in its place. Everything before comes from the garbage alone. */
  lemma Resynchronises(garbage: seq<Octet>, ss: seq<State>)
    ensures var p, g := Published(Scan(garbage + Frames(ss)).states), Published(Scan(garbage).states);
      || p == g + Levels(ss)
      || (ss != [] && p == g + [STOP] + Levels(ss[1..]))
  {
    hide Crc, Scan, Frame, SafeState, Published;
    var all := Frames(ss);
    var rest := Scan(garbage).rest;
    ScanConcat(garbage, all);
    var later := Scan(rest + all).states;
    PublishedConcat(Scan(garbage).states, later);
    if ss == [] {
      ScanShort(rest + all);
      ScanFrames(ss);
      ScanShort(all);
      assert Levels(ss) == [];
    } else {
      var f, t := Frame(ss[0]), Frames(ss[1..]);
      FrameBytes(ss[0]);
      assert rest + all == rest + f + t;
      ScanIntoFrame(rest, f, t);
      ScanFrames(ss[1..]);
      assert Levels(ss) == [Level(ss[0])] + Levels(ss[1..]);
      ghost var b :| later == [b] + Scan(t).states && (b == f[1] || SafeState(b) == STOP);
      PublishedConcat([b], Scan(t).states);
      PublishedOne([], b);
      PublishedConcat([], []);
      assert [] + [b] == [b];
    }
  }

  /** Losing a frame does happen: a stray 0xA5 0x24 in front of a CLEAR frame. */
  lemma FirstFrameCanBeLost()
    ensures var garbage: seq<Octet> := [MAGIC, 0x24];
      && Published(Scan(garbage + Frames([Clear])).states) == [STOP] && Scan(garbage).states == []
  {
    hide Crc, Scan, Published, Rounds8, Xor;
    var f := Frame(Clear);
    var u: seq<Octet> := [MAGIC, 0x24] + f;
    assert Frames([Clear]) == f + Frames([]);
    assert [MAGIC, 0x24] + Frames([Clear]) == u;
    CrcOfTwo(MAGIC, 0x24);
    StrayBytes();
    assert u[0..2] == [MAGIC, 0x24];
    ScanHit(u);
    ScanShort(u[3..]);
    var none: seq<Octet> := [];
    PublishedOne(none, 0x24);
    PublishedConcat(none, none);
    assert none + [0x24] == [0x24];
    assert Scan(u).states == [0x24];
    assert SafeState(0x24) == STOP;
    ScanShort([MAGIC, 0x24]);
  }

  lemma StrayBytes()
    ensures Rounds8(Xor(Rounds8(Xor(0, MAGIC)), 0x24)) == MAGIC
  {
  }
}
