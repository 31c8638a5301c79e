/**
 The stereo recorder (internal/audio/recorder.go): two asynchronous sides aligned by
 zero padding, interleaved into one stream and finalised as a WAV file.
 */
module Recorder {
  import opened Bytes
  import opened Results
  import Transcode
  import Wav

  // ---- interleaving ----

  /** The first n bytes of both sides as stereo frames of two bytes each. */
  function Interleave(left: seq<Byte>, right: seq<Byte>, n: nat): (r: seq<Byte>)
    requires n % 2 == 0 && n <= |left| && n <= |right|
    ensures |r| == 2 * n
  {
    seq(2 * n, i requires 0 <= i < 2 * n => if i % 4 < 2 then left[i / 4 * 2 + i % 4] else right[i / 4 * 2 + i % 4 - 2])
  }

  /** Where byte i of a channel sits in the interleaved data. */
  function FrameByte(i: nat, side: nat): (p: nat)
    requires side < 2
  {
    i / 2 * 4 + i % 2 + side * 2
  }

  /** Byte n + j of a channel of 2n bytes of data lies j bytes into what follows. */
  lemma FrameByteShift(n: nat, j: nat, side: nat)
    requires side < 2 && n % 2 == 0
    ensures FrameByte(n + j, side) == 2 * n + FrameByte(j, side)
  {
    DivisionUnique(n + j, n / 2 + j / 2, j % 2, 2);
  }

  lemma FrameByteBound(i: nat, size: nat, side: nat)
    requires side < 2 && size % 4 == 0 && i < size / 2
    ensures FrameByte(i, side) < size
  {
    var k, m := size / 4, i / 2;
    DivisionUnique(size, 2 * k, 0, 2);
    assert i == 2 * m + i % 2;
  }

  /** A player's view of one channel. */
  function Channel(data: seq<Byte>, side: nat): (r: seq<Byte>)
    requires |data| % 4 == 0 && side < 2
    ensures |r| == |data| / 2
  {
    seq(|data| / 2, i requires 0 <= i < |data| / 2 => FrameByteBound(i, |data|, side); data[FrameByte(i, side)])
  }

  lemma FrameByteFields(i: nat, side: nat)
    requires side < 2
    ensures FrameByte(i, side) / 4 == i / 2 && FrameByte(i, side) % 4 == i % 2 + side * 2
  {
    DivisionUnique(FrameByte(i, side), i / 2, i % 2 + side * 2, 4);
  }

  lemma InterleavedByte(left: seq<Byte>, right: seq<Byte>, n: nat, i: nat, side: nat)
    requires n % 2 == 0 && n <= |left| && n <= |right| && i < n && side < 2
    ensures FrameByte(i, side) < 2 * n
    ensures Interleave(left, right, n)[FrameByte(i, side)] == if side == 0 then left[i] else right[i]
  {
    FrameByteFields(i, side);
    FrameInside(i, n, side);
    InterleavedAt(left, right, n, FrameByte(i, side), i, side);
  }

  lemma FrameInside(i: nat, n: nat, side: nat)
    requires n % 2 == 0 && i < n && side < 2
    ensures FrameByte(i, side) < 2 * n
  {
    var m, h := i / 2, n / 2;
    assert i == 2 * m + i % 2 && n == 2 * h;
  }

  lemma InterleavedAt(left: seq<Byte>, right: seq<Byte>, n: nat, p: nat, i: nat, side: nat)
    requires n % 2 == 0 && n <= |left| && n <= |right| && p < 2 * n && i < n && side < 2
    requires p / 4 == i / 2 && p % 4 == i % 2 + side * 2
    ensures Interleave(left, right, n)[p] == if side == 0 then left[i] else right[i]
  {
    assert p / 4 * 2 + i % 2 == i;
  }

  lemma ChannelOfInterleave(left: seq<Byte>, right: seq<Byte>, n: nat, side: nat)
    requires n % 2 == 0 && n <= |left| && n <= |right| && side < 2
    ensures |Interleave(left, right, n)| % 4 == 0
    ensures Channel(Interleave(left, right, n), side) == if side == 0 then left[..n] else right[..n]
  {
    forall i | 0 <= i < n
      ensures Channel(Interleave(left, right, n), side)[i] == if side == 0 then left[i] else right[i]
    {
      InterleavedByte(left, right, n, i, side);
    }
  }

  lemma WholeFrames(a: nat, b: nat)
    requires a % 4 == 0 && b % 4 == 0
    ensures a / 2 % 2 == 0 && 2 * (a / 2) == a && (a + b) % 4 == 0 && (a + b) / 2 == a / 2 + b / 2
  {
    var p, q := a / 4, b / 4;
    DivisionUnique(a, 2 * p, 0, 2);
    DivisionUnique(b, 2 * q, 0, 2);
    DivisionUnique(2 * p, p, 0, 2);
    DivisionUnique(a + b, p + q, 0, 4);
    DivisionUnique(a + b, 2 * p + 2 * q, 0, 2);
  }

  lemma ChannelAt(data: seq<Byte>, side: nat, i: nat)
    requires |data| % 4 == 0 && side < 2 && i < |data| / 2
    ensures FrameByte(i, side) < |data| && Channel(data, side)[i] == data[FrameByte(i, side)]
  {
    FrameByteBound(i, |data|, side);
  }

  lemma ChannelFront(a: seq<Byte>, b: seq<Byte>, side: nat, i: nat)
    requires |a| % 4 == 0 && |a + b| % 4 == 0 && side < 2 && i < |a| / 2 <= |a + b| / 2
    ensures Channel(a + b, side)[i] == Channel(a, side)[i]
  {
    ChannelAt(a, side, i);
    ChannelAt(a + b, side, i);
  }

  lemma Behind(a: seq<Byte>, b: seq<Byte>, p: nat, q: nat)
    requires p == |a| + q && q < |b|
    ensures p < |a + b| && (a + b)[p] == b[q]
  {
  }

  lemma ChannelBack(a: seq<Byte>, b: seq<Byte>, side: nat, n: nat, j: nat)
    requires |b| % 4 == 0 && |a + b| % 4 == 0 && side < 2 && j < |b| / 2
    requires |a| == 2 * n && n % 2 == 0 && n + j < |a + b| / 2
    ensures Channel(a + b, side)[n + j] == Channel(b, side)[j]
  {
    ChannelAt(b, side, j);
    ChannelAt(a + b, side, n + j);
    FrameByteShift(n, j, side);
    Behind(a, b, FrameByte(n + j, side), FrameByte(j, side));
  }

  lemma ChannelConcat(a: seq<Byte>, b: seq<Byte>, side: nat)
    requires |a| % 4 == 0 && |b| % 4 == 0 && side < 2
    ensures |a + b| % 4 == 0
    ensures Channel(a + b, side) == Channel(a, side) + Channel(b, side)
  {
    var n := |a| / 2;
    WholeFrames(|a|, |b|);
    forall i | 0 <= i < n
      ensures Channel(a + b, side)[i] == Channel(a, side)[i]
    {
      ChannelFront(a, b, side, i);
    }
    forall j | 0 <= j < |b| / 2
      ensures Channel(a + b, side)[n + j] == Channel(b, side)[j]
    {
      ChannelBack(a, b, side, n, j);
    }
    SplitAt(Channel(a + b, side), Channel(a, side), Channel(b, side));
  }

  lemma SplitAt(whole: seq<Byte>, front: seq<Byte>, back: seq<Byte>)
    requires |whole| == |front| + |back|
    requires forall i :: 0 <= i < |front| ==> whole[i] == front[i]
    requires forall j :: 0 <= j < |back| ==> whole[|front| + j] == back[j]
    ensures whole == front + back
  {
    forall i | |front| <= i < |whole|
      ensures whole[i] == back[i - |front|]
    {
      assert whole[|front| + (i - |front|)] == back[i - |front|];
    }
  }

  // ---- only zeros are inserted ----

  /** `out` is `d` with zeros inserted. */
  predicate Embeds<T(==)>(d: seq<T>, out: seq<T>, zero: T) {
    if out == [] then d == []
    else
      var n := |out| - 1;
      || (d != [] && d[|d| - 1] == out[n] && Embeds(d[..|d| - 1], out[..n], zero))
      || (out[n] == zero && Embeds(d, out[..n], zero))
  }

  lemma {:induction false} EmbedsAppend<T>(d: seq<T>, out: seq<T>, x: seq<T>, zero: T)
    requires Embeds(d, out, zero)
    ensures Embeds(d + x, out + x, zero)
    decreases |x|
  {
    if x == [] {
      assert d + x == d && out + x == out;
    } else {
      var n := |x| - 1;
      EmbedsAppend(d, out, x[..n], zero);
      assert (d + x)[..|d + x| - 1] == d + x[..n];
      assert (out + x)[..|out + x| - 1] == out + x[..n];
    }
  }

  lemma {:induction false} EmbedsZeros<T>(d: seq<T>, out: seq<T>, z: seq<T>, zero: T)
    requires Embeds(d, out, zero) && forall i :: 0 <= i < |z| ==> z[i] == zero
    ensures Embeds(d, out + z, zero)
    decreases |z|
  {
    if z == [] {
      assert out + z == out;
    } else {
      var n := |z| - 1;
      EmbedsZeros(d, out, z[..n], zero);
      assert (out + z)[..|out + z| - 1] == out + z[..n] && (out + z)[|out + z| - 1] == zero;
    }
  }

  /** Cutting the last byte costs at most the last byte received. */
  predicate EmbedsBut(d: seq<Byte>, out: seq<Byte>, lost: nat) {
    lost <= |d| && Embeds(d[..|d| - lost], out, 0)
  }

  lemma CutLast(d: seq<Byte>, out: seq<Byte>, n: nat)
    requires Embeds(d, out, 0) && |out| - 1 <= n <= |out|
    ensures EmbedsBut(d, out[..n], 0) || EmbedsBut(d, out[..n], 1)
  {
    assert d[..|d| - 0] == d;
    assert out[..|out|] == out;
  }

  // ---- the recorder as a state machine ----

  /** Both side buffers, the interleaved data written so far, and all bytes received per side. */
  datatype State = State(left: seq<Byte>, right: seq<Byte>, data: seq<Byte>, inLeft: seq<Byte>, inRight: seq<Byte>)

  datatype Event = Left(buf: seq<Byte>) | Right(buf: seq<Byte>) | Tick

  const EMPTY := State([], [], [], [], [])

  function Even(n: nat): (e: nat)
    ensures e % 2 == 0 && n - 1 <= e <= n
  {
    n - n % 2
  }

  function WriteOut(s: State, n: nat): (r: State)
    requires n % 2 == 0 && n <= |s.left| && n <= |s.right|
  {
    s.(data := s.data + Interleave(s.left, s.right, n), left := s.left[n..], right := s.right[n..])
  }

  function Process(s: State): (r: State) {
    WriteOut(s, Even(Min(|s.left|, |s.right|)))
  }

  function HandleSilence(s: State, sampleRate: nat): (r: State) {
    if |s.left| - |s.right| > sampleRate then
      Process(s.(right := s.right + Zeros(Even(|s.left| - |s.right|))))
    else if |s.right| - |s.left| > sampleRate then
      Process(s.(left := s.left + Zeros(Even(|s.right| - |s.left|))))
    else s
  }

  /** Zero bytes that bring a buffer up to n. */
  function PadTo(b: seq<Byte>, n: nat): (r: seq<Byte>) {
    b + Zeros(Max(n - |b|, 0))
  }

  function Flush(s: State): (r: State) {
    var n := Even(Max(|s.left|, |s.right|));
    WriteOut(s.(left := PadTo(s.left, n), right := PadTo(s.right, n)), n)
  }

  function Next(s: State, e: Event, sampleRate: nat): (r: State) {
    match e
    case Left(buf) => Process(s.(left := s.left + buf, inLeft := s.inLeft + buf))
    case Right(buf) => Process(s.(right := s.right + buf, inRight := s.inRight + buf))
    case Tick => HandleSilence(s, sampleRate)
  }

  function Run(events: seq<Event>, sampleRate: nat): (s: State) {
    if events == [] then EMPTY
    else Next(Run(events[..|events| - 1], sampleRate), events[|events| - 1], sampleRate)
  }

  lemma RunSnoc(events: seq<Event>, e: Event, sampleRate: nat)
    ensures Run(events + [e], sampleRate) == Next(Run(events, sampleRate), e, sampleRate)
  {
    assert (events + [e])[..|events|] == events;
  }

  // ---- one side of a state ----

  /** The data consists of whole frames. */
  predicate Framed(s: State) {
    |s.data| % 4 == 0
  }

  /** All a side has got so far: its channel and then its buffer. */
  function Side(s: State, side: nat): (r: seq<Byte>)
    requires Framed(s) && side < 2
  {
    Channel(s.data, side) + if side == 0 then s.left else s.right
  }

  function InSide(s: State, side: nat): (r: seq<Byte>) {
    if side == 0 then s.inLeft else s.inRight
  }

  /** What an event brings for a side. */
  function Arrived(e: Event, side: nat): (r: seq<Byte>) {
    match e
    case Left(buf) => if side == 0 then buf else []
    case Right(buf) => if side == 0 then [] else buf
    case Tick => []
  }

  /** Moving the front of a buffer to its channel leaves channel plus buffer unchanged. */
  lemma SideWritten(data: seq<Byte>, more: seq<Byte>, side: nat, buf: seq<Byte>, n: nat)
    requires |data| % 4 == 0 && |more| % 4 == 0 && side < 2 && n <= |buf|
    requires Channel(more, side) == buf[..n]
    ensures |data + more| % 4 == 0 && Channel(data + more, side) + buf[n..] == Channel(data, side) + buf
  {
    ChannelConcat(data, more, side);
    var c := Channel(data, side);
    assert c + buf[..n] + buf[n..] == c + buf;
  }

  lemma WriteOutSide(s: State, n: nat, side: nat)
    requires Framed(s) && n % 2 == 0 && n <= |s.left| && n <= |s.right| && side < 2
    ensures Framed(WriteOut(s, n)) && Side(WriteOut(s, n), side) == Side(s, side)
  {
    var more := Interleave(s.left, s.right, n);
    ChannelOfInterleave(s.left, s.right, n, side);
    SideWritten(s.data, more, side, if side == 0 then s.left else s.right, n);
  }

  lemma ProcessSide(s: State, side: nat)
    requires Framed(s) && side < 2
    ensures Framed(Process(s)) && Side(Process(s), side) == Side(s, side)
  {
    WriteOutSide(s, Even(Min(|s.left|, |s.right|)), side);
  }

  lemma AppendTwice(a: seq<Byte>, b: seq<Byte>, c: seq<Byte>)
    ensures a + b + c == a + (b + c)
    ensures a + Zeros(0) == a && a + [] == a
  {
  }

  /** Receiving or padding appends to the side. */
  lemma AppendSide(s: State, left: seq<Byte>, right: seq<Byte>, side: nat)
    requires Framed(s) && side < 2
    ensures Side(s.(left := s.left + left, right := s.right + right), side) == Side(s, side) + if side == 0 then left else right
  {
    AppendTwice(Channel(s.data, side), if side == 0 then s.left else s.right, if side == 0 then left else right);
  }

  /** Padding one side and interleaving appends the zeros to that side alone. */
  lemma PadSide(s: State, left: nat, right: nat, side: nat)
    requires Framed(s) && side < 2
    ensures var r := Process(s.(left := s.left + Zeros(left), right := s.right + Zeros(right)));
            Framed(r) && Side(r, side) == Side(s, side) + Zeros(if side == 0 then left else right) && InSide(r, side) == InSide(s, side)
  {
    AppendSide(s, Zeros(left), Zeros(right), side);
    ProcessSide(s.(left := s.left + Zeros(left), right := s.right + Zeros(right)), side);
  }

  /** The silence a side of one length needs beside one of another: none while it lags by no more than the rate. */
  function Missing(mine: nat, other: nat, sampleRate: nat): (k: nat)
    ensures k % 2 == 0
    ensures other - mine <= sampleRate ==> k == 0
    ensures other - mine > sampleRate ==> other - 1 <= mine + k <= other
  {
    if other - mine <= sampleRate then 0 else other - mine - (other - mine) % 2
  }

  /** Both channels are equally long, so a side lags by what its buffer lacks. */
  lemma Lag(s: State)
    requires Framed(s)
    ensures |Side(s, 0)| - |Side(s, 1)| == |s.left| - |s.right|
  {
  }

  lemma SilenceSide(s: State, sampleRate: nat, side: nat) returns (k: nat)
    requires Framed(s) && side < 2
    ensures k == Missing(|Side(s, side)|, |Side(s, 1 - side)|, sampleRate) && Framed(HandleSilence(s, sampleRate))
    ensures Side(HandleSilence(s, sampleRate), side) == Side(s, side) + Zeros(k)
    ensures InSide(HandleSilence(s, sampleRate), side) == InSide(s, side)
  {
    AppendTwice(s.left, [], []);
    AppendTwice(s.right, [], []);
    Lag(s);
    if |s.left| - |s.right| > sampleRate {
      var n := Even(|s.left| - |s.right|);
      k := if side == 0 then 0 else n;
      PadSide(s, 0, n, side);
    } else if |s.right| - |s.left| > sampleRate {
      var n := Even(|s.right| - |s.left|);
      k := if side == 0 then n else 0;
      PadSide(s, n, 0, side);
    } else {
      k := 0;
      AppendTwice(Side(s, side), [], []);
    }
  }

  lemma ReceiveSide(s: State, e: Event, sampleRate: nat, side: nat)
    requires Framed(s) && side < 2 && !e.Tick?
    ensures Framed(Next(s, e, sampleRate)) && Side(Next(s, e, sampleRate), side) == Side(s, side) + Arrived(e, side)
    ensures InSide(Next(s, e, sampleRate), side) == InSide(s, side) + Arrived(e, side)
  {
    var left, right := Arrived(e, 0), Arrived(e, 1);
    AppendSide(s, left, right, side);
    AppendTwice(s.left, [], []);
    AppendTwice(s.right, [], []);
    AppendTwice(InSide(s, side), [], []);
    var received := s.(left := s.left + left, right := s.right + right, inLeft := s.inLeft + left, inRight := s.inRight + right);
    AppendTwice(s.inLeft, [], []);
    AppendTwice(s.inRight, [], []);
    ProcessSide(received, side);
  }

  /** A side gets what an event brings it, and at a tick the zeros it lacks when it lags too far; nothing else. */
  lemma NextSide(s: State, e: Event, sampleRate: nat, side: nat) returns (k: nat)
    requires Framed(s) && side < 2
    ensures k == (if e.Tick? then Missing(|Side(s, side)|, |Side(s, 1 - side)|, sampleRate) else 0)
    ensures k % 2 == 0 && Framed(Next(s, e, sampleRate))
    ensures Side(Next(s, e, sampleRate), side) == Side(s, side) + Arrived(e, side) + Zeros(k)
    ensures InSide(Next(s, e, sampleRate), side) == InSide(s, side) + Arrived(e, side)
  {
    AppendTwice(InSide(s, side), [], []);
    AppendTwice(Side(s, side), [], []);
    if e.Tick? {
      k := SilenceSide(s, sampleRate, side);
    } else {
      k := 0;
      ReceiveSide(s, e, sampleRate, side);
      AppendTwice(Side(s, side) + Arrived(e, side), [], []);
    }
  }

  // ---- every run ----

  /** What the side has received is in it, with only zero bytes added. */
  ghost predicate Faithful(s: State, side: nat)
    requires side < 2
  {
    Framed(s) && Embeds(InSide(s, side), Side(s, side), 0)
  }

  lemma {:induction false} RunFaithful(events: seq<Event>, sampleRate: nat, side: nat)
    requires side < 2
    ensures Faithful(Run(events, sampleRate), side)
  {
    if events == [] {
      assert Side(EMPTY, side) == [];
    } else {
      var n := |events| - 1;
      var s := Run(events[..n], sampleRate);
      RunFaithful(events[..n], sampleRate, side);
      var k := NextSide(s, events[n], sampleRate, side);
      EmbedsAppend(InSide(s, side), Side(s, side), Arrived(events[n], side), 0);
      EmbedsZeros(InSide(s, side) + Arrived(events[n], side), Side(s, side) + Arrived(events[n], side), Zeros(k), 0);
    }
  }

  // ---- the two timelines ----

  /** What the recording should hold of both sides, told without buffers, frames or files. */
  datatype Lanes = Lanes(left: seq<Byte>, right: seq<Byte>)

  function Timeline(events: seq<Event>, sampleRate: nat): (t: Lanes) {
    if events == [] then Lanes([], [])
    else
      var t := Timeline(events[..|events| - 1], sampleRate);
      match events[|events| - 1]
      case Left(buf) => t.(left := t.left + buf)
      case Right(buf) => t.(right := t.right + buf)
      case Tick =>
        Lanes(t.left + Zeros(Missing(|t.left|, |t.right|, sampleRate)), t.right + Zeros(Missing(|t.right|, |t.left|, sampleRate)))
  }

  function Lane(t: Lanes, side: nat): (r: seq<Byte>) {
    if side == 0 then t.left else t.right
  }

  lemma TimelineNext(events: seq<Event>, sampleRate: nat, side: nat)
    requires events != [] && side < 2
    ensures var t, e := Timeline(events[..|events| - 1], sampleRate), events[|events| - 1];
            Lane(Timeline(events, sampleRate), side) == Lane(t, side) + Arrived(e, side)
            + Zeros(if e.Tick? then Missing(|Lane(t, side)|, |Lane(t, 1 - side)|, sampleRate) else 0)
  {
    var t, e := Timeline(events[..|events| - 1], sampleRate), events[|events| - 1];
    AppendTwice(Lane(t, side) + Arrived(e, side), [], []);
    AppendTwice(Lane(t, side), [], []);
  }

  /** In every reachable state channel plus buffer of a side is its timeline. */
  lemma {:induction false} SidesAreTimelines(events: seq<Event>, sampleRate: nat, side: nat)
    requires side < 2
    ensures Framed(Run(events, sampleRate))
    ensures Side(Run(events, sampleRate), side) == Lane(Timeline(events, sampleRate), side)
  {
    if events == [] {
      assert Side(EMPTY, side) == [];
    } else {
      var before := events[..|events| - 1];
      SidesAreTimelines(before, sampleRate, side);
      SidesAreTimelines(before, sampleRate, 1 - side);
      var k := NextSide(Run(before, sampleRate), events[|events| - 1], sampleRate, side);
      TimelineNext(events, sampleRate, side);
    }
  }

  /** A lane brought to n bytes: zeros behind it, or an odd last byte cut off. */
  function Brought(b: seq<Byte>, n: nat): (r: seq<Byte>)
    ensures |r| == n
  {
    PadTo(b, n)[..n]
  }

  /** How long both channels of the closed file are: as long as the longer lane, in whole samples. */
  function Length(t: Lanes): (n: nat) {
    Max(|t.left|, |t.right|) - Max(|t.left|, |t.right|) % 2
  }

  // ---- whole samples ----

  /** Every chunk holds whole samples. */
  predicate WholeChunks(events: seq<Event>) {
    forall i :: 0 <= i < |events| ==> |Arrived(events[i], 0)| % 2 == 0 && |Arrived(events[i], 1)| % 2 == 0
  }

  /** Sample by sample, `out` is `d` with zero samples inserted. */
  predicate EmbedsSamples(d: seq<Byte>, out: seq<Byte>) {
    |d| % 2 == 0 && |out| % 2 == 0 && Embeds(Transcode.Samples(d), Transcode.Samples(out), 0)
  }

  /** What the side has received is in it sample by sample, with only zero samples added. */
  ghost predicate Whole(s: State, side: nat)
    requires side < 2
  {
    Framed(s) && EmbedsSamples(InSide(s, side), Side(s, side))
  }

  lemma SamplesConcat(a: seq<Byte>, b: seq<Byte>)
    requires |a| % 2 == 0 && |b| % 2 == 0
    ensures |a + b| % 2 == 0 && Transcode.Samples(a + b) == Transcode.Samples(a) + Transcode.Samples(b)
  {
    forall i | 0 <= i < |a + b| / 2
      ensures Transcode.Samples(a + b)[i] == (Transcode.Samples(a) + Transcode.Samples(b))[i]
    {
      if i >= |a| / 2 {
        assert 2 * i - |a| == 2 * (i - |a| / 2);
      }
    }
  }

  lemma ZeroSamples(k: nat)
    requires k % 2 == 0
    ensures forall i :: 0 <= i < k / 2 ==> Transcode.Samples(Zeros(k))[i] == 0
  {
  }

  lemma WholeAppend(d: seq<Byte>, out: seq<Byte>, x: seq<Byte>)
    requires EmbedsSamples(d, out) && |x| % 2 == 0
    ensures EmbedsSamples(d + x, out + x)
  {
    SamplesConcat(d, x);
    SamplesConcat(out, x);
    EmbedsAppend(Transcode.Samples(d), Transcode.Samples(out), Transcode.Samples(x), 0);
  }

  lemma WholeZeros(d: seq<Byte>, out: seq<Byte>, k: nat)
    requires EmbedsSamples(d, out) && k % 2 == 0
    ensures EmbedsSamples(d, out + Zeros(k))
  {
    SamplesConcat(out, Zeros(k));
    ZeroSamples(k);
    EmbedsZeros(Transcode.Samples(d), Transcode.Samples(out), Transcode.Samples(Zeros(k)), 0);
  }

  /** With chunks of whole samples, padding only ever inserts whole zero samples. */
  lemma {:induction false} RunWhole(events: seq<Event>, sampleRate: nat, side: nat)
    requires side < 2 && WholeChunks(events)
    ensures Whole(Run(events, sampleRate), side)
  {
    if events == [] {
      assert Side(EMPTY, side) == [];
    } else {
      var n := |events| - 1;
      var s := Run(events[..n], sampleRate);
      RunWhole(events[..n], sampleRate, side);
      var k := NextSide(s, events[n], sampleRate, side);
      assert |Arrived(events[n], side)| % 2 == 0;
      WholeAppend(InSide(s, side), Side(s, side), Arrived(events[n], side));
      WholeZeros(InSide(s, side) + Arrived(events[n], side), Side(s, side) + Arrived(events[n], side), k);
    }
  }

  /** Interleaving leaves at most one byte on the shorter side and keeps the difference. */
  lemma ProcessBacklog(s: State)
    ensures var r := Process(s);
            && Min(|r.left|, |r.right|) <= 1
            && |r.left| - |r.right| == |s.left| - |s.right|
            && |r.left| <= |s.left| && |r.right| <= |s.right|
  {
  }

  lemma SilenceBacklog(s: State, sampleRate: nat)
    requires Min(|s.left|, |s.right|) <= 1
    ensures var r := HandleSilence(s, sampleRate);
            Min(|r.left|, |r.right|) <= 1 && Max(|r.left|, |r.right|) <= Max(sampleRate + 1, 2)
  {
    if |s.left| - |s.right| > sampleRate {
      ProcessBacklog(s.(right := s.right + Zeros(Even(|s.left| - |s.right|))));
    } else if |s.right| - |s.left| > sampleRate {
      ProcessBacklog(s.(left := s.left + Zeros(Even(|s.right| - |s.left|))));
    }
  }

  /** Between events the shorter side holds at most one byte; after a tick the longer side is bounded too. */
  lemma {:induction false} Backlog(events: seq<Event>, sampleRate: nat)
    ensures var s := Run(events, sampleRate); Min(|s.left|, |s.right|) <= 1
    ensures var s := Run(events, sampleRate);
            events != [] && events[|events| - 1].Tick? ==> Max(|s.left|, |s.right|) <= Max(sampleRate + 1, 2)
  {
    if events != [] {
      var s := Run(events[..|events| - 1], sampleRate);
      Backlog(events[..|events| - 1], sampleRate);
      match events[|events| - 1]
      case Left(buf) => ProcessBacklog(s.(left := s.left + buf, inLeft := s.inLeft + buf));
      case Right(buf) => ProcessBacklog(s.(right := s.right + buf, inRight := s.inRight + buf));
      case Tick => SilenceBacklog(s, sampleRate);
    }
  }

  // ---- closing ----

  lemma FlushNothing(s: State)
    requires Even(Max(|s.left|, |s.right|)) == 0
    ensures Flush(s) == s
  {
    AppendTwice(s.left, [], []);
    AppendTwice(s.right, [], []);
    AppendTwice(s.data, [], []);
    assert Interleave(s.left, s.right, 0) == [];
  }

  /** The flush appends zeros to a side and moves it to its channel, but for an odd last byte. */
  lemma FlushSide(s: State, side: nat) returns (k: nat, rest: seq<Byte>)
    requires Framed(s) && side < 2
    ensures Framed(Flush(s)) && InSide(Flush(s), side) == InSide(s, side)
    ensures Channel(Flush(s).data, side) + rest == Side(s, side) + Zeros(k) && |rest| <= 1
    ensures k == Max(Even(Max(|s.left|, |s.right|)) - |if side == 0 then s.left else s.right|, 0)
    ensures |s.left| % 2 == 0 && |s.right| % 2 == 0 ==> k % 2 == 0 && rest == []
  {
    var n := Even(Max(|s.left|, |s.right|));
    var left, right := Max(n - |s.left|, 0), Max(n - |s.right|, 0);
    k := if side == 0 then left else right;
    var t := s.(left := PadTo(s.left, n), right := PadTo(s.right, n));
    AppendSide(s, Zeros(left), Zeros(right), side);
    WriteOutSide(t, n, side);
    rest := if side == 0 then t.left[n..] else t.right[n..];
  }

  /** The remaining bytes of a side, and padding, are all the final flush adds. */
  lemma FlushFaithful(s: State, side: nat)
    requires side < 2 && Faithful(s, side)
    ensures var f := Flush(s);
            && Framed(f) && InSide(f, side) == InSide(s, side)
            && (EmbedsBut(InSide(s, side), Channel(f.data, side), 0) || EmbedsBut(InSide(s, side), Channel(f.data, side), 1))
  {
    var k, rest := FlushSide(s, side);
    EmbedsZeros(InSide(s, side), Side(s, side), Zeros(k), 0);
    LastByteLost(InSide(s, side), Channel(Flush(s).data, side), rest);
  }

  lemma LastByteLost(received: seq<Byte>, channel: seq<Byte>, rest: seq<Byte>)
    requires Embeds(received, channel + rest, 0) && |rest| <= 1
    ensures EmbedsBut(received, channel, 0) || EmbedsBut(received, channel, 1)
  {
    CutLast(received, channel + rest, |channel|);
    assert (channel + rest)[..|channel|] == channel;
  }

  /** A channel of whole frames has an even length, so the rest of an even side is even. */
  lemma EvenBuffer(data: nat, buffer: nat)
    requires data % 4 == 0 && (data / 2 + buffer) % 2 == 0
    ensures data / 2 % 2 == 0 && buffer % 2 == 0
  {
    var k, q := data / 4, (data / 2 + buffer) / 2;
    DivisionUnique(data, 2 * k, 0, 2);
    DivisionUnique(2 * k, k, 0, 2);
    DivisionUnique(buffer, q - k, 0, 2);
  }

  lemma EvenBuffers(s: State)
    requires Framed(s) && |Side(s, 0)| % 2 == 0 && |Side(s, 1)| % 2 == 0
    ensures |s.left| % 2 == 0 && |s.right| % 2 == 0
  {
    EvenBuffer(|s.data|, |s.left|);
    EvenBuffer(|s.data|, |s.right|);
  }

  lemma CutAt(whole: seq<Byte>, front: seq<Byte>, rest: seq<Byte>, n: nat)
    requires whole == front + rest && |front| == n
    ensures whole[..n] == front
  {
  }

  /** The even part of a maximum above a common even start. */
  lemma EvenAbove(start: nat, a: nat, b: nat)
    requires start % 2 == 0
    ensures Max(start + a, start + b) - Max(start + a, start + b) % 2 == start + Even(Max(a, b))
  {
    var m := Max(a, b);
    DivisionUnique(start + m, start / 2 + m / 2, m % 2, 2);
  }

  /** The flush brings both sides to the length of the longer one. */
  lemma FlushBrings(s: State, t: Lanes, side: nat)
    requires Framed(s) && side < 2 && Side(s, 0) == t.left && Side(s, 1) == t.right
    ensures Framed(Flush(s)) && Channel(Flush(s).data, side) == Brought(Lane(t, side), Length(t))
  {
    var k, rest := FlushSide(s, side);
    var n := Even(Max(|s.left|, |s.right|));
    WholeFrames(|s.data|, 0);
    EvenAbove(|s.data| / 2, |s.left|, |s.right|);
    assert |Channel(Flush(s).data, side)| == |s.data| / 2 + n by { FlushLength(s); }
    CutAt(Side(s, side) + Zeros(k), Channel(Flush(s).data, side), rest, |s.data| / 2 + n);
  }

  lemma FlushLength(s: State)
    requires Framed(s)
    ensures |Flush(s).data| == |s.data| + 2 * Even(Max(|s.left|, |s.right|))
  {
  }

  /** With whole samples in both buffers the flush only adds zeros. */
  lemma FlushEven(s: State, side: nat) returns (k: nat)
    requires Framed(s) && side < 2 && |s.left| % 2 == 0 && |s.right| % 2 == 0
    ensures k % 2 == 0 && Framed(Flush(s)) && InSide(Flush(s), side) == InSide(s, side)
    ensures Channel(Flush(s).data, side) == Side(s, side) + Zeros(k)
  {
    var rest;
    k, rest := FlushSide(s, side);
    AppendTwice(Channel(Flush(s).data, side), [], []);
  }

  lemma FlushWhole(s: State, side: nat)
    requires side < 2 && Framed(s) && |s.left| % 2 == 0 && |s.right| % 2 == 0
    requires EmbedsSamples(InSide(s, side), Side(s, side))
    ensures Framed(Flush(s)) && EmbedsSamples(InSide(s, side), Channel(Flush(s).data, side))
    ensures InSide(Flush(s), side) == InSide(s, side)
  {
    var k := FlushEven(s, side);
    WholeZeros(InSide(s, side), Side(s, side), k);
  }

  /** The file the recorder leaves after these events. */
  function FinalFile(events: seq<Event>, sampleRate: nat): (f: seq<Byte>) {
    Wav.Finished(sampleRate, Flush(Run(events, sampleRate)).data)
  }

  /**
   While the data fits the header's 32-bit sizes, and only then, a reader of the closed file
   gets a stereo recording; its channels have equal lengths, and each is what that side
   received, in order, with only zeros inserted and at most one trailing byte lost.
   */
  lemma ClosedRecording(events: seq<Event>, sampleRate: Word32)
    ensures var s := Flush(Run(events, sampleRate));
            var r := Wav.Parse(FinalFile(events, sampleRate));
            && (r.Some? <==> |s.data| < WORD32 - 36)
            && (r.Some? ==>
                  && r.value.sampleRate == sampleRate && r.value.channels == 2
                  && |r.value.data| % 4 == 0
                  && (var left, right := Channel(r.value.data, 0), Channel(r.value.data, 1);
                      && |left| == |right|
                      && (EmbedsBut(s.inLeft, left, 0) || EmbedsBut(s.inLeft, left, 1))
                      && (EmbedsBut(s.inRight, right, 0) || EmbedsBut(s.inRight, right, 1))))
  {
    RunFaithful(events, sampleRate, 0);
    RunFaithful(events, sampleRate, 1);
    FlushFaithful(Run(events, sampleRate), 0);
    FlushFaithful(Run(events, sampleRate), 1);
    Wav.ParseFinished(sampleRate, Flush(Run(events, sampleRate)).data);
  }

  lemma ClosedLanes(events: seq<Event>, sampleRate: nat, side: nat)
    requires side < 2
    ensures var f, t := Flush(Run(events, sampleRate)), Timeline(events, sampleRate);
            Framed(f) && Channel(f.data, side) == Brought(Lane(t, side), Length(t))
  {
    SidesAreTimelines(events, sampleRate, 0);
    SidesAreTimelines(events, sampleRate, 1);
    FlushBrings(Run(events, sampleRate), Timeline(events, sampleRate), side);
  }

  lemma TwiceLength(n: nat, data: nat)
    requires data % 4 == 0 && data / 2 == n
    ensures data == 2 * n
  {
    WholeFrames(data, 0);
  }

  /**
   The closed recording in full: its channels are the two timelines, brought to the length of the
   longer one in whole samples. It is readable exactly while that fits the 32-bit sizes.
   */
  lemma ExactRecording(events: seq<Event>, sampleRate: Word32)
    ensures var t := Timeline(events, sampleRate);
            var r := Wav.Parse(FinalFile(events, sampleRate));
            && (r.Some? <==> 2 * Length(t) < WORD32 - 36)
            && (r.Some? ==>
                  && r.value.sampleRate == sampleRate && r.value.channels == 2 && |r.value.data| % 4 == 0
                  && Channel(r.value.data, 0) == Brought(t.left, Length(t))
                  && Channel(r.value.data, 1) == Brought(t.right, Length(t)))
  {
    ClosedLanes(events, sampleRate, 0);
    ClosedLanes(events, sampleRate, 1);
    var data := Flush(Run(events, sampleRate)).data;
    TwiceLength(Length(Timeline(events, sampleRate)), |data|);
    Wav.ParseFinished(sampleRate, data);
  }

  /** Between events both buffers hold whole samples. */
  lemma RunEven(events: seq<Event>, sampleRate: nat)
    requires WholeChunks(events)
    ensures var s := Run(events, sampleRate); Framed(s) && |s.left| % 2 == 0 && |s.right| % 2 == 0
  {
    RunWhole(events, sampleRate, 0);
    RunWhole(events, sampleRate, 1);
    EvenBuffers(Run(events, sampleRate));
  }

  lemma WholeData(events: seq<Event>, sampleRate: nat, side: nat)
    requires WholeChunks(events) && side < 2
    ensures var f := Flush(Run(events, sampleRate));
            Framed(f) && EmbedsSamples(InSide(f, side), Channel(f.data, side))
  {
    RunEven(events, sampleRate);
    RunWhole(events, sampleRate, side);
    FlushWhole(Run(events, sampleRate), side);
  }

  lemma ReadableData(events: seq<Event>, sampleRate: Word32)
    ensures var r := Wav.Parse(FinalFile(events, sampleRate));
            r.Some? ==> r.value.data == Flush(Run(events, sampleRate)).data
  {
    Wav.ParseFinished(sampleRate, Flush(Run(events, sampleRate)).data);
  }

  lemma FlushedInputs(events: seq<Event>, sampleRate: nat, side: nat)
    requires side < 2
    ensures InSide(Flush(Run(events, sampleRate)), side) == Received(events, side == 0)
  {
    InputsAreReceived(events, sampleRate);
  }

  /**
   With chunks of whole samples nothing is lost and no sample is torn: each channel of a readable
   file is, sample by sample, what that side received with only zero samples inserted.
   */
  lemma WholeRecording(events: seq<Event>, sampleRate: Word32, side: nat)
    requires WholeChunks(events) && side < 2
    ensures var r := Wav.Parse(FinalFile(events, sampleRate));
            r.Some? ==>
              |r.value.data| % 4 == 0 && EmbedsSamples(Received(events, side == 0), Channel(r.value.data, side))
  {
    ReadableData(events, sampleRate);
    WholeData(events, sampleRate, side);
    FlushedInputs(events, sampleRate, side);
  }

  /** The bytes a run received from one side. */
  function Received(events: seq<Event>, left: bool): (r: seq<Byte>) {
    if events == [] then []
    else
      var e := events[|events| - 1];
      Received(events[..|events| - 1], left)
      + if left && e.Left? then e.buf else if !left && e.Right? then e.buf else []
  }

  lemma {:induction false} InputsAreReceived(events: seq<Event>, sampleRate: nat)
    ensures Run(events, sampleRate).inLeft == Received(events, true)
    ensures Run(events, sampleRate).inRight == Received(events, false)
  {
    if events != [] {
      InputsAreReceived(events[..|events| - 1], sampleRate);
    }
  }

  lemma SilenceOnRight(s: State, sampleRate: nat)
    requires |s.left| - |s.right| > sampleRate
    ensures HandleSilence(s, sampleRate) == Process(s.(right := s.right + Zeros(Even(|s.left| - |s.right|))))
  {
  }

  lemma SilenceOnLeft(s: State, sampleRate: nat)
    requires |s.right| - |s.left| > sampleRate
    ensures HandleSilence(s, sampleRate) == Process(s.(left := s.left + Zeros(Even(|s.right| - |s.left|))))
  {
  }

  // ---- the goroutine ----

  class StereoRecorder {
    const sampleRate: nat
    const w: Wav.FastWavWriter
    var leftBuf: seq<Byte>
    var rightBuf: seq<Byte>
    ghost var state: State
    /** Everything that reached the goroutine's loop. */
    ghost var events: seq<Event>

    ghost predicate Valid()
      reads this, w
    {
      InStep() && state == Run(events, sampleRate)
    }

    /** The concrete state is the abstract one. */
    ghost predicate InStep()
      reads this, w
    {
      && w.Valid() && w.sampleRate == sampleRate
      && w.written == state.data
      && leftBuf == state.left && rightBuf == state.right
    }

    constructor (sampleRate: nat)
      ensures Valid() && fresh(w) && this.sampleRate == sampleRate && events == []
    {
      this.sampleRate := sampleRate;
      w := new Wav.FastWavWriter(sampleRate);
      leftBuf, rightBuf, state, events := [], [], EMPTY, [];
    }

    /** Record the event that led here. */
    ghost method Log(e: Event)
      requires state == Run(events + [e], sampleRate)
      modifies this`events
      ensures state == Run(events, sampleRate) && events == old(events) + [e]
    {
      events := events + [e];
    }

    method HandleLeft(buf: seq<Byte>)
      requires Valid()
      modifies this, w
      ensures Valid() && events == old(events) + [Left(buf)]
    {
      TakeLeft(buf);
      RunSnoc(events, Left(buf), sampleRate);
      Log(Left(buf));
    }

    method TakeLeft(buf: seq<Byte>)
      requires InStep()
      modifies this`leftBuf, this`rightBuf, this`state, w
      ensures InStep() && state == Next(old(state), Left(buf), sampleRate)
    {
      leftBuf := leftBuf + buf;
      state := state.(left := state.left + buf, inLeft := state.inLeft + buf);
      ProcessBuffers();
    }

    method HandleRight(buf: seq<Byte>)
      requires Valid()
      modifies this, w
      ensures Valid() && events == old(events) + [Right(buf)]
    {
      TakeRight(buf);
      RunSnoc(events, Right(buf), sampleRate);
      Log(Right(buf));
    }

    method TakeRight(buf: seq<Byte>)
      requires InStep()
      modifies this`leftBuf, this`rightBuf, this`state, w
      ensures InStep() && state == Next(old(state), Right(buf), sampleRate)
    {
      rightBuf := rightBuf + buf;
      state := state.(right := state.right + buf, inRight := state.inRight + buf);
      ProcessBuffers();
    }

    method ProcessBuffers()
      requires InStep()
      modifies this`leftBuf, this`rightBuf, this`state, w
      ensures InStep() && state == Process(old(state))
    {
      var minBytes := Min(|rightBuf|, |leftBuf|);
      minBytes := minBytes - minBytes % 2;
      if minBytes == 0 {
        assert WriteOut(state, 0) == state;
        return;
      }
      WriteInterleaved(minBytes);
    }

    method HandleTick()
      requires Valid()
      modifies this, w
      ensures Valid() && events == old(events) + [Tick]
    {
      FillSilence();
      RunSnoc(events, Tick, sampleRate);
      Log(Tick);
    }

    /** The silence tick: pad the side that lags by more than the threshold. */
    method FillSilence()
      requires InStep()
      modifies this`leftBuf, this`rightBuf, this`state, w
      ensures InStep() && state == Next(old(state), Tick, sampleRate)
    {
      var threshold := sampleRate;
      if |leftBuf| - |rightBuf| > threshold {
        var count := Even(|leftBuf| - |rightBuf|);
        SilenceOnRight(state, sampleRate);
        PadRight(count);
      } else if |rightBuf| - |leftBuf| > threshold {
        var count := Even(|rightBuf| - |leftBuf|);
        SilenceOnLeft(state, sampleRate);
        PadLeft(count);
      }
    }

    method PadRight(count: nat)
      requires InStep()
      modifies this`leftBuf, this`rightBuf, this`state, w
      ensures InStep() && state == Process(old(state).(right := old(state).right + Zeros(count)))
    {
      rightBuf := rightBuf + Zeros(count);
      state := state.(right := state.right + Zeros(count));
      ProcessBuffers();
    }

    method PadLeft(count: nat)
      requires InStep()
      modifies this`leftBuf, this`rightBuf, this`state, w
      ensures InStep() && state == Process(old(state).(left := old(state).left + Zeros(count)))
    {
      leftBuf := leftBuf + Zeros(count);
      state := state.(left := state.left + Zeros(count));
      ProcessBuffers();
    }

    /** After the channels are drained: flush both sides and finalise the file. */
    method Close()
      requires Valid()
      modifies this, w
      ensures w.file == FinalFile(old(events), sampleRate)
    {
      FlushBuffers();
      w.Close();
    }

    /** Pad the shorter side and write what is left. */
    method FlushBuffers()
      requires InStep()
      modifies this`leftBuf, this`rightBuf, this`state, w
      ensures InStep() && state == Flush(old(state))
    {
      var maxBytes := Max(|rightBuf|, |leftBuf|);
      maxBytes := maxBytes - maxBytes % 2;
      assert maxBytes == Even(Max(|leftBuf|, |rightBuf|));
      if maxBytes == 0 {
        FlushNothing(state);
        return;
      }
      leftBuf := Pad(leftBuf, maxBytes);
      rightBuf := Pad(rightBuf, maxBytes);
      state := state.(left := leftBuf, right := rightBuf);
      WriteInterleaved(maxBytes);
    }

    static method Pad(buf: seq<Byte>, n: nat) returns (r: seq<Byte>)
      ensures r == PadTo(buf, n)
    {
      r := buf;
      if |buf| < n {
        r := buf + Zeros(n - |buf|);
      }
      assert |buf| >= n ==> r == buf + Zeros(0);
    }

    method WriteInterleaved(byteCount: nat)
      requires InStep() && byteCount % 2 == 0 && byteCount <= |leftBuf| && byteCount <= |rightBuf|
      modifies this`leftBuf, this`rightBuf, this`state, w
      ensures InStep() && state == WriteOut(old(state), byteCount)
    {
      var byteBuf := FillFrames(byteCount);
      var spill: nat :| spill <= |w.buffered| + byteBuf.Length;
      w.Write(byteBuf[..], spill);
      leftBuf := leftBuf[byteCount..];
      rightBuf := rightBuf[byteCount..];
      state := WriteOut(state, byteCount);
    }

    method FillFrames(byteCount: nat) returns (byteBuf: array<Byte>)
      requires byteCount % 2 == 0 && byteCount <= |leftBuf| && byteCount <= |rightBuf|
      ensures fresh(byteBuf) && byteBuf[..] == Interleave(leftBuf, rightBuf, byteCount)
    {
      var sampleCount := byteCount / 2;
      byteBuf := new Byte[sampleCount * 4];
      for i := 0 to sampleCount
        invariant forall k :: 0 <= k < i * 4 ==> byteBuf[k] == Interleave(leftBuf, rightBuf, byteCount)[k]
      {
        assert (i * 4) / 4 == i && (i * 4 + 1) / 4 == i && (i * 4 + 2) / 4 == i && (i * 4 + 3) / 4 == i;
        byteBuf[i * 4] := leftBuf[i * 2];
        byteBuf[i * 4 + 1] := leftBuf[i * 2 + 1];
        byteBuf[i * 4 + 2] := rightBuf[i * 2];
        byteBuf[i * 4 + 3] := rightBuf[i * 2 + 1];
      }
      assert byteBuf[..] == Interleave(leftBuf, rightBuf, byteCount);
    }
  }
}
