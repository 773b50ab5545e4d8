/** A stream of safety frames over a noisy line: what the receiver can make of frames that are each
    hit by at most one short burst of bit errors. */
module LineNoise {
  import opened SafetyJudge
  import opened UartFrame
  import opened UartReceiver

  /** Which bits of a frame's three bytes are flipped. */
  type Errors = e: seq<Octet> | |e| == 3 witness [0, 0, 0]

  /** A frame as sent and the errors it meets. */
  datatype Sent = Sent(s: State, e: Errors)

  const INTACT: Errors := [0, 0, 0]

  /** No error, or one burst of at most eight consecutive bits. */
  ghost predicate Noise(e: Errors)
  {
    e == INTACT || exists start: nat :: Burst(Bits(e), start)
  }

  ghost predicate Noisy(fs: seq<Sent>)
  {
    forall i :: 0 <= i < |fs| ==> Noise(fs[i].e)
  }

  function Arrived(f: Sent): (g: seq<Octet>)
    ensures |g| == 3
  {
    Xored(Frame(f.s), f.e)
  }

  function Stream(fs: seq<Sent>): (r: seq<Octet>)
    ensures |r| == 3 * |fs|
  {
    if fs == [] then [] else Arrived(fs[0]) + Stream(fs[1..])
  }

  // ---------------------------------------------------------------- one frame

  lemma BitsOfThree(e: Errors)
    ensures Bits(e) == ByteBits(e[0]) + ByteBits(e[1]) + ByteBits(e[2])
  {
    hide ByteBits;
    assert e[..2][..1] == e[..1] && e[..1][..0] == [];
    assert Bits(e[..1]) == Bits([]) + ByteBits(e[0]);
    assert Bits(e[..2]) == Bits(e[..1]) + ByteBits(e[1]);
  }

  lemma NoBitsNoByte(b: Octet)
    requires forall i :: 0 <= i < 8 ==> !ByteBits(b)[i]
    ensures b == 0
  {
    ByteBitsAre(0);
    assert ByteBits(b) == ByteBits(0);
    SameBits(b, 0);
  }

  /** A burst that starts with the top bit of byte `k` leaves the byte behind it alone. */
  lemma TopBitEndsBurst(e: Errors, k: nat)
    requires Noise(e) && k < 2 && Has(e[k], 0x80)
    ensures e[k + 1] == 0
  {
    hide ByteBits, Has;
    ByteBitsAre(e[k]);
    BitsOfThree(e);
    if e != INTACT {
      var start: nat :| Burst(Bits(e), start);
      assert Bits(e)[8 * k] == ByteBits(e[k])[0];
      var next := ByteBits(e[k + 1]);
      forall i | 0 <= i < 8 ensures !next[i] {
        assert Bits(e)[8 * (k + 1) + i] == next[i];
      }
      NoBitsNoByte(e[k + 1]);
    }
  }

  lemma FromMagic(e: Octet)
    ensures Xor(MAGIC, e) == 0 || Xor(MAGIC, e) == 1 ==> Has(e, 0x80)
    ensures Xor(0, e) == MAGIC || Xor(1, e) == MAGIC || Xor(2, e) == MAGIC ==> Has(e, 0x80)
  {
  }

  /** The frame is found at its own place only if it is intact. */
  lemma InPlace(f: Sent)
    requires Noise(f.e)
    ensures var g := Arrived(f);
      g[0] == MAGIC && Crc([g[0], g[1]]) == g[2] ==> f.e == INTACT && SafeState(g[1]) == Level(f.s)
  {
    hide Crc, Burst, Bits, Rounds8, Xor;
    var g := Arrived(f);
    if f.e == INTACT {
      XorZero(Frame(f.s)[1]);
    } else {
      var start: nat :| Burst(Bits(f.e), start);
      CorruptFrameRejected(f.s, f.e, start);
      assert g[..2] == [g[0], g[1]];
    }
  }

  /** If its state byte is taken for a magic, the byte behind it can only mean STOP. */
  lemma OneLate(f: Sent)
    requires Noise(f.e) && Arrived(f)[1] == MAGIC
    ensures SafeState(Arrived(f)[2]) == STOP
  {
    hide Crc, Noise, Xor, Has;
    FrameCrcs();
    FromMagic(f.e[1]);
    XorZero(Frame(f.s)[2]);
    TopBitEndsBurst(f.e, 1);
  }

  /** Its magic is never taken for a moving state that its state byte confirms as a checksum. */
  lemma TwoLate(f: Sent)
    requires Noise(f.e) && Crc([MAGIC, Arrived(f)[0]]) == Arrived(f)[1]
    ensures SafeState(Arrived(f)[0]) == STOP
  {
    hide Crc, Noise, Xor, Has;
    var g := Arrived(f);
    if g[0] == 0 || g[0] == 1 {
      FrameCrcs();
      FromMagic(f.e[0]);
      XorZero(Frame(f.s)[1]);
      TopBitEndsBurst(f.e, 0);
    }
  }

  // ---------------------------------------------------------------- the stream

  /** The states that let the robot move. */
  function Moves(p: seq<int>): seq<int>
  {
    if p == [] then [] else (if p[0] == STOP then [] else [p[0]]) + Moves(p[1..])
  }

  /** What the intact frames say, in order. */
  function IntactLevels(fs: seq<Sent>): seq<int>
  {
    if fs == [] then []
    else (if fs[0].e == INTACT then [Level(fs[0].s)] else []) + IntactLevels(fs[1..])
  }

  /** `a` is `b` with some elements left out. */
  predicate Subsequence(a: seq<int>, b: seq<int>)
  {
    a == [] || (b != [] && ((a[0] == b[0] && Subsequence(a[1..], b[1..])) || Subsequence(a, b[1..])))
  }

  lemma MovesCons(x: int, p: seq<int>)
    ensures Moves([x] + p) == (if x == STOP then [] else [x]) + Moves(p)
  {
    assert ([x] + p)[1..] == p;
  }

  lemma SubsequenceCons(a: seq<int>, x: int, b: seq<int>)
    requires Subsequence(a, b)
    ensures Subsequence(a, [x] + b) && Subsequence([x] + a, [x] + b)
  {
    assert ([x] + b)[1..] == b && ([x] + a)[1..] == a;
  }

  /** The moves found are among those that the intact frames ask for. */
  ghost predicate Explained(states: seq<Octet>, fs: seq<Sent>)
  {
    Subsequence(Moves(Published(states)), Moves(IntactLevels(fs)))
  }

  lemma MoreFrames(states: seq<Octet>, f: Sent, rest: seq<Sent>)
    requires Explained(states, rest)
    ensures Explained(states, [f] + rest)
  {
    hide Subsequence, Moves, Published;
    assert ([f] + rest)[1..] == rest;
    var x := Level(f.s);
    if f.e == INTACT {
      MovesCons(x, IntactLevels(rest));
      SubsequenceCons(Moves(Published(states)), x, Moves(IntactLevels(rest)));
    }
    assert [] + IntactLevels(rest) == IntactLevels(rest);
    assert [] + Moves(IntactLevels(rest)) == Moves(IntactLevels(rest));
  }

  lemma PublishedCons(b: Octet, states: seq<Octet>)
    ensures Published([b] + states) == [SafeState(b)] + Published(states)
  {
    hide SafeState;
  }

  lemma FalseFrame(b: Octet, states: seq<Octet>, fs: seq<Sent>)
    requires SafeState(b) == STOP && Explained(states, fs)
    ensures Explained([b] + states, fs)
  {
    hide SafeState, Subsequence, IntactLevels;
    PublishedCons(b, states);
    MovesCons(STOP, Published(states));
    assert [] + Moves(Published(states)) == Moves(Published(states));
  }

  lemma TrueFrame(b: Octet, states: seq<Octet>, f: Sent, rest: seq<Sent>)
    requires f.e == INTACT && SafeState(b) == Level(f.s) && Explained(states, rest)
    ensures Explained([b] + states, [f] + rest)
  {
    hide SafeState, Subsequence, Moves;
    var x := Level(f.s);
    assert ([f] + rest)[1..] == rest;
    PublishedCons(b, states);
    MovesCons(x, Published(states));
    MovesCons(x, IntactLevels(rest));
    SubsequenceCons(Moves(Published(states)), x, Moves(IntactLevels(rest)));
    assert [] + Moves(Published(states)) == Moves(Published(states));
    assert [] + Moves(IntactLevels(rest)) == Moves(IntactLevels(rest));
  }

  lemma StreamHead(fs: seq<Sent>)
    requires Noisy(fs) && fs != []
    ensures Noisy(fs[1..]) && Noise(fs[0].e) && fs == [fs[0]] + fs[1..]
    ensures Stream(fs) == Arrived(fs[0]) + Stream(fs[1..])
  {
  }

  lemma NothingFound(buffer: seq<Octet>, fs: seq<Sent>)
    requires |buffer| < 3
    ensures Explained(Scan(buffer).states, fs)
  {
    hide Crc;
  }

  /** In step with the frames. */
  lemma {:induction false} Scan0(fs: seq<Sent>)
    requires Noisy(fs)
    ensures Explained(Scan(Stream(fs)).states, fs)
    decreases |fs|, 3
  {
    hide Crc, Scan, Noise, Explained, Stream, SafeState, Arrived;
    if fs == [] {
      NothingFound(Stream(fs), fs);
    } else {
      StreamHead(fs);
      var f, rest, buffer := fs[0], fs[1..], Stream(fs);
      var g := Arrived(f);
      InPlace(f);
      assert buffer[0..2] == [g[0], g[1]] && buffer[3..] == Stream(rest);
      if FrameAt(buffer, 0) {
        ScanHit(buffer);
        Scan0(rest);
        TrueFrame(g[1], Scan(Stream(rest)).states, f, rest);
      } else {
        ScanMiss(buffer);
        Scan1(fs);
        MoreFrames(Scan(buffer).states, f, rest);
      }
    }
  }

  /** One byte late: the first frame is behind. */
  lemma {:induction false} Scan1(fs: seq<Sent>)
    requires Noisy(fs) && fs != []
    ensures Explained(Scan(Stream(fs)[1..]).states, fs[1..])
    decreases |fs|, 2
  {
    hide Crc, Scan, Noise, Explained, Stream, SafeState, Arrived;
    StreamHead(fs);
    var rest, buffer, g := fs[1..], Stream(fs)[1..], Arrived(fs[0]);
    if rest == [] {
      NothingFound(buffer, rest);
    } else {
      StreamHead(rest);
      assert buffer[0..2] == [g[1], g[2]] && buffer[3..] == Stream(rest)[1..] && buffer[1..] == Stream(fs)[2..];
      if FrameAt(buffer, 0) {
        OneLate(fs[0]);
        ScanHit(buffer);
        Scan1(rest);
        MoreFrames(Scan(buffer[3..]).states, rest[0], rest[1..]);
        FalseFrame(g[2], Scan(buffer[3..]).states, rest);
      } else {
        ScanMiss(buffer);
        Scan2(fs);
      }
    }
  }

  /** Two bytes late. */
  lemma {:induction false} Scan2(fs: seq<Sent>)
    requires Noisy(fs) && fs != []
    ensures Explained(Scan(Stream(fs)[2..]).states, fs[1..])
    decreases |fs|, 1
  {
    hide Crc, Scan, Noise, Explained, Stream, SafeState, Arrived;
    StreamHead(fs);
    var rest, buffer, g := fs[1..], Stream(fs)[2..], Arrived(fs[0]);
    if rest == [] {
      NothingFound(buffer, rest);
    } else {
      StreamHead(rest);
      var h := Arrived(rest[0]);
      assert buffer[0..2] == [g[2], h[0]] && buffer[2] == h[1];
      assert buffer[3..] == Stream(rest)[2..] && buffer[1..] == Stream(rest);
      if FrameAt(buffer, 0) {
        TwoLate(rest[0]);
        ScanHit(buffer);
        Scan2(rest);
        MoreFrames(Scan(buffer[3..]).states, rest[0], rest[1..]);
        FalseFrame(h[0], Scan(buffer[3..]).states, rest);
      } else {
        ScanMiss(buffer);
        Scan0(rest);
      }
    }
  }

  /** Over any number of frames, each hit by at most one burst of at most eight bits, and however the
      bytes are split over the polls: every state the receiver publishes is STOP or was sent in a frame
      that arrived intact, in the order sent and no more often. */
  lemma NoisyStreamIsSafe(fs: seq<Sent>, chunks: seq<seq<Octet>>)
    requires Noisy(fs) && Joined(chunks) == Stream(fs)
    ensures Subsequence(Moves(Published(Polls(chunks).states)), Moves(IntactLevels(fs)))
  {
    hide Scan, Noisy, Subsequence, Moves;
    FragmentationIndependent(chunks);
    Scan0(fs);
  }
}
