/** Turning random bytes into rolls on a bounded channel (server/roll/generator.go). */
module Generating {
  import opened Text

  type Byte = b: int | 0 <= b <= 255

  const ROLL_MAX := 6
  const INPUT_BYTE_MAX := KeptMax(ROLL_MAX, 255)

  /** The largest byte kept, of those up to a maximum, for rolls of n faces. */
  function KeptMax(n: nat, max: nat): int
    requires n > 0
  {
    max - (max % n + 1)
  }

  function Face(b: nat, n: nat): nat
    requires n > 0
  {
    b % n + 1
  }

  // ---- Fairness ----

  /** The bytes below a bound that give a face. */
  function Preimages(bound: nat, n: nat, face: nat): set<nat>
    requires n > 0
  {
    set b: nat | b < bound && Face(b, n) == face
  }

  lemma DivModStep(k: nat, n: nat)
    requires n > 0
    ensures k % n == n - 1 ==> (k + 1) / n == k / n + 1 && (k + 1) % n == 0
    ensures k % n < n - 1 ==> (k + 1) / n == k / n && (k + 1) % n == k % n + 1
  {
    var q, r := k / n, k % n;
    assert k == q * n + r;
    if r == n - 1 {
      assert k + 1 == (q + 1) * n;
      DivModUnique(k + 1, n, q + 1, 0);
    } else {
      DivModUnique(k + 1, n, q, r + 1);
    }
  }

  lemma DivModUnique(k: nat, n: nat, q: nat, r: nat)
    requires k == q * n + r && r < n
    ensures k / n == q && k % n == r
  {
    assert k == (k / n) * n + k % n;
    assert (k / n - q) * n == r - k % n;
    MultipleBound(k / n - q, n);
  }

  lemma MultipleBound(d: int, n: nat)
    ensures d >= 1 ==> d * n >= n
    ensures d <= -1 ==> d * n + n <= 0
  {
  }

  lemma PreimageStep(k: nat, n: nat, face: nat)
    requires n > 0
    ensures |Preimages(k + 1, n, face)| == |Preimages(k, n, face)| + if Face(k, n) == face then 1 else 0
  {
    if Face(k, n) == face {
      assert Preimages(k + 1, n, face) == Preimages(k, n, face) + {k};
    } else {
      assert Preimages(k + 1, n, face) == Preimages(k, n, face);
    }
  }

  /** How many bytes below any bound give a face. */
  lemma {:induction false} PreimageCount(bound: nat, n: nat, face: nat)
    requires 1 <= face <= n
    ensures |Preimages(bound, n, face)| == bound / n + if face <= bound % n then 1 else 0
  {
    if bound == 0 {
      assert Preimages(0, n, face) == {};
      DivModUnique(0, n, 0, 0);
    } else {
      PreimageCount(bound - 1, n, face);
      PreimageStep(bound - 1, n, face);
      DivModStep(bound - 1, n);
    }
  }

  /** Keeping the bytes below a bound is fair if and only if the bound is a multiple of the faces. */
  lemma FairIff(bound: nat, n: nat)
    requires n > 0
    ensures bound % n == 0
       <==> forall face, face' | 1 <= face <= n && 1 <= face' <= n ::
              |Preimages(bound, n, face)| == |Preimages(bound, n, face')|
  {
    forall face | 1 <= face <= n
      ensures |Preimages(bound, n, face)| == bound / n + if face <= bound % n then 1 else 0
    {
      PreimageCount(bound, n, face);
    }
    if bound % n != 0 {
      assert |Preimages(bound, n, 1)| != |Preimages(bound, n, n)|;
    }
  }

  /** The bytes kept give every face the same number of times, for any number of faces up to the largest
      byte. */
  lemma RejectionIsUniform(n: nat, max: nat, face: nat)
    requires 1 <= n <= max && 1 <= face <= n
    ensures KeptMax(n, max) >= 0
    ensures |Preimages(KeptMax(n, max) + 1, n, face)| == (max - max % n) / n
  {
    var bound := max - max % n;
    assert bound == (max / n) * n + 0;
    DivModUnique(bound, n, max / n, 0);
    PreimageCount(bound, n, face);
  }

  /** Every face of a six-sided die comes from 42 of the bytes kept, 0 to 251. */
  lemma FortyTwoEach(face: nat)
    requires 1 <= face <= ROLL_MAX
    ensures INPUT_BYTE_MAX == 251 && |Preimages(INPUT_BYTE_MAX + 1, ROLL_MAX, face)| == 42
  {
    RejectionIsUniform(ROLL_MAX, 255, face);
  }

  // ---- Generator and roller ----

  /** The roll a byte gives; none when it is above the cut. */
  function RollOf(b: Byte): seq<int> {
    if b > INPUT_BYTE_MAX then [] else [Face(b, ROLL_MAX)]
  }

  /** The rolls that bytes give. */
  function Rolls(bytes: seq<Byte>): seq<int> {
    FlatMap(bytes, RollOf)
  }

  lemma RollsFirst(bytes: seq<Byte>)
    requires bytes != []
    ensures Rolls(bytes) == RollOf(bytes[0]) + Rolls(bytes[1..])
  {
  }

  lemma {:induction false} RollsAreFaces(bytes: seq<Byte>)
    ensures forall r | r in Rolls(bytes) :: 1 <= r <= ROLL_MAX
  {
    if bytes != [] {
      RollsAreFaces(bytes[1..]);
      RollsFirst(bytes);
    }
  }

  datatype Phase = Starting | Running | Closed

  /** A generator and its roller: all bytes read, those of the buffer still to be handled, the rolls on the
      channel and those received. */
  datatype Pipe = Pipe(
    bufferSize: nat, capacity: nat, phase: Phase,
    read: seq<Byte>, buffer: seq<Byte>, channel: seq<int>, received: seq<int>)

  datatype Step =
    | Begin(canceled: bool)
    | Read(bytes: seq<Byte>)
    | SourceError
    | Drop
    | Send
    | HandOff
    | Cancel
    | Receive
    | FindClosed

  predicate Keeps(p: Pipe) {
    p.buffer != [] && p.buffer[0] <= INPUT_BYTE_MAX
  }

  /** What can happen: the generator fills an empty buffer as a whole, drops bytes above the cut, sends
      while there is room, hands a roll straight to a waiting roller, and notices a canceled context only
      at the start and when sending. */
  predicate ValidStep(p: Pipe, step: Step) {
    match step
    case Begin(_) => p.phase.Starting?
    case Read(bytes) => p.phase.Running? && p.buffer == [] && |bytes| == p.bufferSize
    case SourceError => p.phase.Running? && p.buffer == []
    case Drop => p.phase.Running? && p.buffer != [] && !Keeps(p)
    case Send => p.phase.Running? && Keeps(p) && |p.channel| < p.capacity
    case HandOff => p.phase.Running? && Keeps(p) && p.channel == []
    case Cancel => p.phase.Running? && Keeps(p)
    case Receive => p.channel != []
    case FindClosed => p.channel == [] && p.phase.Closed?
  }

  function Next(p: Pipe, step: Step): Pipe
    requires ValidStep(p, step)
  {
    match step
    case Begin(canceled) => p.(phase := if canceled then Closed else Running)
    case Read(bytes) => p.(read := p.read + bytes, buffer := bytes)
    case SourceError => p.(phase := Closed)
    case Drop => p.(buffer := p.buffer[1..])
    case Send => p.(buffer := p.buffer[1..], channel := p.channel + [Face(p.buffer[0], ROLL_MAX)])
    case HandOff => p.(buffer := p.buffer[1..], received := p.received + [Face(p.buffer[0], ROLL_MAX)])
    case Cancel => p.(phase := Closed)
    case Receive => p.(channel := p.channel[1..], received := p.received + [p.channel[0]])
    case FindClosed => p
  }

  predicate ValidRun(p: Pipe, steps: seq<Step>)
    decreases |steps|
  {
    steps != [] ==> ValidStep(p, steps[0]) && ValidRun(Next(p, steps[0]), steps[1..])
  }

  function Run(p: Pipe, steps: seq<Step>): Pipe
    requires ValidRun(p, steps)
    decreases |steps|
  {
    if steps == [] then p else Run(Next(p, steps[0]), steps[1..])
  }

  function Start(bufferSize: nat, capacity: nat): Pipe {
    Pipe(bufferSize, capacity, Starting, [], [], [], [])
  }

  /** Every byte read is a roll received, on the channel or still to come, in order, or was dropped. */
  predicate Accounted(p: Pipe) {
    && p.received + p.channel + Rolls(p.buffer) == Rolls(p.read)
    && |p.channel| <= p.capacity
  }

  lemma Reassociate(a: seq<int>, b: seq<int>, c: seq<int>, d: seq<int>)
    ensures a + b + (c + d) == a + (b + c) + d
  {
  }

  lemma StepKeepsAccount(p: Pipe, step: Step)
    requires Accounted(p) && ValidStep(p, step)
    ensures Accounted(Next(p, step))
  {
    match step
    case Read(bytes) =>
      FlatMapAppend(p.read, bytes, RollOf);
    case Drop =>
      RollsFirst(p.buffer);
    case Send =>
      RollsFirst(p.buffer);
      Reassociate(p.received, p.channel, RollOf(p.buffer[0]), Rolls(p.buffer[1..]));
    case HandOff =>
      RollsFirst(p.buffer);
    case Receive =>
      assert p.channel == [p.channel[0]] + p.channel[1..];
    case _ =>
  }

  lemma {:induction false} RunKeepsAccount(p: Pipe, steps: seq<Step>)
    requires Accounted(p) && ValidRun(p, steps)
    ensures Accounted(Run(p, steps))
    decreases |steps|
  {
    if steps != [] {
      StepKeepsAccount(p, steps[0]);
      RunKeepsAccount(Next(p, steps[0]), steps[1..]);
    }
  }

  /** In every interleaving the rolls received and then those on the channel are the first rolls of the
      bytes read, none lost, none twice; all are faces of the die and the channel holds its capacity. */
  lemma NothingLostOrDuplicated(bufferSize: nat, capacity: nat, steps: seq<Step>)
    requires ValidRun(Start(bufferSize, capacity), steps)
    ensures var p := Run(Start(bufferSize, capacity), steps);
            && p.received + p.channel <= Rolls(p.read)
            && (forall r | r in p.received :: 1 <= r <= ROLL_MAX)
            && |p.channel| <= p.capacity
  {
    RunKeepsAccount(Start(bufferSize, capacity), steps);
    var p := Run(Start(bufferSize, capacity), steps);
    RollsAreFaces(p.read);
    assert forall r | r in p.received :: r in p.received + p.channel + Rolls(p.buffer);
  }

  /** After the close the roller gets exactly what is on the channel, in order, and only then an error. */
  lemma {:induction false} ClosedDrains(p: Pipe, steps: seq<Step>)
    requires p.phase.Closed? && ValidRun(p, steps)
    ensures var q := Run(p, steps);
            && q.phase.Closed? && p.received <= q.received
            && q.received + q.channel == p.received + p.channel
            && (FindClosed in steps ==> q.received == p.received + p.channel)
            && |p.channel| - |q.channel| <= |steps|
    decreases |steps|
  {
    if steps != [] {
      ClosedDrains(Next(p, steps[0]), steps[1..]);
      if steps[0].Receive? {
        assert p.channel == [p.channel[0]] + p.channel[1..];
      } else {
        assert p.channel == [];
      }
      assert steps == [steps[0]] + steps[1..];
    }
  }

  /** Some step is possible in every state, except when the generator waits for a roller that does not
      receive: then the channel has room again once it does. */
  lemma NeverStuck(p: Pipe)
    requires |p.channel| <= p.capacity
    ensures exists step :: ValidStep(p, step)
    ensures p.phase.Running? && p.capacity > 0 && (forall step | ValidStep(p, step) :: step.Cancel? || step.Receive?)
        ==> |p.channel| == p.capacity && ValidStep(Next(p, Receive), Send)
  {
    if p.phase.Starting? {
      assert ValidStep(p, Begin(false));
    } else if p.channel != [] {
      assert ValidStep(p, Receive);
    } else if p.phase.Closed? {
      assert ValidStep(p, FindClosed);
    } else if p.buffer == [] {
      assert ValidStep(p, SourceError);
    } else if Keeps(p) {
      assert ValidStep(p, HandOff);
    } else {
      assert ValidStep(p, Drop);
    }
    if p.phase.Running? && p.capacity > 0 && (forall step | ValidStep(p, step) :: step.Cancel? || step.Receive?) {
      assert !ValidStep(p, SourceError) && !ValidStep(p, Drop) && !ValidStep(p, Send) && !ValidStep(p, HandOff);
    }
  }

  /** The steps that close the channel. */
  predicate Closes(step: Step) {
    step == Begin(true) || step.SourceError? || step.Cancel?
  }

  /** The channel is closed after a run if and only if the run was canceled, at the start or when sending, or
      the source failed; it runs if and only if it began and nothing of the kind happened. */
  lemma {:induction false} ClosedIff(p: Pipe, steps: seq<Step>)
    requires ValidRun(p, steps)
    ensures Run(p, steps).phase.Closed? <==> p.phase.Closed? || exists step :: step in steps && Closes(step)
    ensures Run(p, steps).phase.Starting? <==> p.phase.Starting? && forall step | step in steps :: !step.Begin?
    decreases |steps|
  {
    if steps != [] {
      ClosedIff(Next(p, steps[0]), steps[1..]);
      assert steps == [steps[0]] + steps[1..];
      assert steps[0] in steps;
    }
  }

  /** After the close nothing more is read or sent. */
  lemma {:induction false} ClosedReadsNothing(p: Pipe, steps: seq<Step>)
    requires p.phase.Closed? && ValidRun(p, steps)
    ensures Run(p, steps).read == p.read && Run(p, steps).buffer == p.buffer
    decreases |steps|
  {
    if steps != [] {
      ClosedReadsNothing(Next(p, steps[0]), steps[1..]);
    }
  }

  /** What a run reads is what its source gave, and each read fills the whole buffer. */
  function BytesOf(steps: seq<Step>): seq<Byte> {
    if steps == [] then [] else (if steps[0].Read? then steps[0].bytes else []) + BytesOf(steps[1..])
  }

  lemma {:induction false} ReadsItsSource(p: Pipe, steps: seq<Step>)
    requires ValidRun(p, steps)
    ensures Run(p, steps).read == p.read + BytesOf(steps)
    decreases |steps|
  {
    if steps != [] {
      ReadsItsSource(Next(p, steps[0]), steps[1..]);
    }
  }
}
