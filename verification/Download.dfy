/** The resumable segmented download: up to eight writers seek into one partial file, then a size
    and hash gate and a rename. Steps of all runs, crashes and restarts interleave in one machine. */
module Download {

  type Byte = b: int | 0 <= b < 256

  import opened Prelude

  const CHUNK: nat := 64 * 1024 * 1024
  const WRITERS: nat := 8

  /** One manifest entry, the bytes the server holds for it, and the hash function. */
  datatype Config<!D(==)> = Config(remote: seq<Byte>, sha: D, hash: seq<Byte> -> D) {
    function Size(): nat { |remote| }

    /** The manifest describes what the server holds, and no other bytes have that hash. */
    ghost predicate Honest() {
      hash(remote) == sha && forall b :: hash(b) == sha ==> b == remote
    }
  }

  datatype Proc =
    | Idle
    | Parallel(start: nat, next: nat, inflight: set<nat>, failed: bool)
    | Stream

  /** The partial file, the final name, and the process if one runs. */
  datatype State = State(part: Option<seq<Byte>>, dest: Option<seq<Byte>>, proc: Proc)

  datatype Event =
    | Begin                                  // `get` is called
    | Launch                                 // a worker takes the next segment
    | Land(at: nat, payload: seq<Byte>)      // a worker's write completes
    | Tear(at: nat, payload: seq<Byte>)      // part of a worker's write reaches the file
    | Fail(at: nat)                          // a segment raises
    | Data(payload: seq<Byte>)               // one read of the streaming path
    | Finish                                 // the gate: size, hash, rename
    | Crash

  function Zeros(n: nat): (r: seq<Byte>)
    ensures |r| == n && forall i :: 0 <= i < n ==> r[i] == 0
  {
    seq(n, _ => 0)
  }

  /** `seek(at); write(bytes)` on a file opened for update: a gap past the end reads as zeros. */
  function WriteAt(file: seq<Byte>, at: nat, bytes: seq<Byte>): (r: seq<Byte>)
    ensures |r| >= |file|
    ensures bytes != [] ==> |r| == if at + |bytes| >= |file| then at + |bytes| else |file|
    ensures bytes == [] ==> r == file
    ensures bytes != [] ==> forall i :: |file| <= i < at ==> r[i] == 0
    ensures forall i :: 0 <= i < |file| && !(at <= i < at + |bytes|) ==> r[i] == file[i]
    ensures forall i :: at <= i < at + |bytes| ==> i < |r| && r[i] == bytes[i - at]
  {
    if bytes == [] then file
    else
      var base := if at <= |file| then file else file + Zeros(at - |file|);
      base[..at] + bytes + if at + |bytes| < |base| then base[at + |bytes|..] else []
  }

  /** End of the segment that starts at `at`. */
  function SegEnd(at: nat, size: nat): nat {
    if at + CHUNK < size then at + CHUNK else size
  }

  /** A worker has the segment at `at`. */
  predicate Writing<D>(c: Config<D>, s: State, at: nat) {
    s.proc.Parallel? && s.part.Some? && at in s.proc.inflight && at < c.Size()
  }

  /** What one event does; `None` when it cannot happen in this state. */
  function Next<D>(c: Config<D>, s: State, e: Event): Option<State> {
    match e
    case Begin =>
      if !s.proc.Idle? then None
      else if s.dest.Some? then Some(s)        // kept if it matches the manifest, refused otherwise
      else if c.Size() > CHUNK then
        var start := if s.part.Some? then |s.part.value| else 0;
        if start > c.Size() then Some(s)       // refused
        else Some(s.(part := Some(if s.part.Some? then s.part.value else []),
                     proc := Parallel(start, start, {}, false)))
      else Some(s.(part := Some([]), proc := Stream))
    case Launch =>
      if s.proc.Parallel? && |s.proc.inflight| < WRITERS && s.proc.next < c.Size() then
        Some(s.(proc := s.proc.(next := s.proc.next + CHUNK, inflight := s.proc.inflight + {s.proc.next})))
      else None
    case Land(at, payload) =>
      if Writing(c, s, at) && |payload| == SegEnd(at, c.Size()) - at then
        Some(s.(part := Some(WriteAt(s.part.value, at, payload)),
                proc := s.proc.(inflight := s.proc.inflight - {at})))
      else None
    case Tear(at, payload) =>
      if Writing(c, s, at) && |payload| <= SegEnd(at, c.Size()) - at then
        Some(s.(part := Some(WriteAt(s.part.value, at, payload))))
      else None
    case Fail(at) =>
      if s.proc.Parallel? && at in s.proc.inflight then
        Some(s.(proc := s.proc.(inflight := s.proc.inflight - {at}, failed := true)))
      else None
    case Data(payload) =>
      if s.proc.Stream? && s.part.Some? then Some(s.(part := Some(s.part.value + payload))) else None
    case Finish =>
      if s.part.None? then None
      else if s.proc.Parallel? && s.proc.inflight == {} && (s.proc.failed || s.proc.next >= c.Size()) then
        Some(if s.proc.failed then s.(proc := Idle) else Gate(c, s))
      else if s.proc.Stream? then Some(Gate(c, s))
      else None
    case Crash => Some(s.(proc := Idle))
  }

  /** The final assertions and the rename. */
  function Gate<D>(c: Config<D>, s: State): State
    requires s.part.Some?
  {
    if |s.part.value| == c.Size() && c.hash(s.part.value) == c.sha then State(None, s.part, Idle)
    else s.(proc := Idle)
  }

  /** A trace of any number of runs; events that cannot happen are skipped. */
  function Exec<D>(c: Config<D>, s: State, es: seq<Event>): State {
    if es == [] then s else
      var t := Exec(c, s, es[..|es| - 1]);
      var r := Next(c, t, es[|es| - 1]);
      if r.Some? then r.value else t
  }

  // ----- the final name

  /** The manifest's gate. */
  predicate Verified<D>(c: Config<D>, b: seq<Byte>) {
    |b| == c.Size() && c.hash(b) == c.sha
  }

  /** Whatever runs, crashes, torn writes and corrupt payloads happen, the final name either keeps
      what it had or, having had nothing, holds bytes that passed the size and hash gate. */
  lemma {:induction false} FinalNameIsVerified<D>(c: Config<D>, s: State, es: seq<Event>)
    requires s.proc.Idle?
    ensures Exec(c, s, es).dest.Some? ==> Exec(c, s, es).proc.Idle?
    ensures var t := Exec(c, s, es);
            s.dest.Some? ==> t.dest == s.dest
    ensures var t := Exec(c, s, es);
            s.dest.None? && t.dest.Some? ==> Verified(c, t.dest.value)
    decreases |es|
  {
    if es != [] {
      FinalNameIsVerified(c, s, es[..|es| - 1]);
    }
  }

  // ----- the segments

  /** The segment starts of a resume, in submission order. */
  function Starts(start: nat, size: nat): seq<nat>
    decreases if start < size then size - start else 0
  {
    if start >= size then [] else [start] + Starts(start + CHUNK, size)
  }

  /** Byte `k` lies in the segment at `at`. */
  predicate InSegment(at: nat, size: nat, k: nat) {
    at <= k < SegEnd(at, size)
  }

  /** The start of the segment that holds byte `k`. */
  function SegStart(start: nat, k: nat): (r: nat)
    requires start <= k
    ensures r <= k < r + CHUNK && start <= r
  {
    start + (k - start) / CHUNK * CHUNK
  }

  lemma SegStartUnique(start: nat, k: nat, q: nat)
    requires start <= k
    requires start + q * CHUNK <= k < start + q * CHUNK + CHUNK
    ensures SegStart(start, k) == start + q * CHUNK
  {
  }

  lemma SegStartShift(start: nat, k: nat)
    requires start + CHUNK <= k
    ensures SegStart(start + CHUNK, k) == SegStart(start, k)
  {
    var q := (k - start - CHUNK) / CHUNK;
    assert k - start == (q + 1) * CHUNK + (k - start - CHUNK) % CHUNK;
    SegStartUnique(start, k, q + 1);
  }

  /** The segments partition [start, size): each byte lies in exactly one of them. */
  lemma {:induction false} SegmentsPartition(start: nat, size: nat, k: nat)
    requires start <= k < size
    ensures forall i :: 0 <= i < |Starts(start, size)| ==>
      (InSegment(Starts(start, size)[i], size, k) <==> Starts(start, size)[i] == SegStart(start, k))
    ensures SegStart(start, k) in Starts(start, size)
    decreases size - start
  {
    var rest := Starts(start + CHUNK, size);
    StartsAbove(start + CHUNK, size);
    if k < start + CHUNK {
      SegStartUnique(start, k, 0);
    } else {
      SegStartShift(start, k);
      SegmentsPartition(start + CHUNK, size, k);
      assert SegStart(start, k) in rest;
    }
    forall i | 0 <= i < |Starts(start, size)|
      ensures InSegment(Starts(start, size)[i], size, k) <==> Starts(start, size)[i] == SegStart(start, k)
    {
      if i > 0 {
        assert Starts(start, size)[i] == rest[i - 1];
        assert rest[i - 1] in rest;
      }
    }
  }

  lemma {:induction false} StartsAbove(start: nat, size: nat)
    ensures forall s :: s in Starts(start, size) ==> start <= s < size
    decreases if start < size then size - start else 0
  {
    if start < size {
      StartsAbove(start + CHUNK, size);
    }
  }

  // ----- an honest run, in any order

  /** Segments taken and written with the server's bytes; no failure, no crash. */
  predicate HonestEvent<D>(c: Config<D>, e: Event) {
    match e
    case Launch => true
    case Land(at, payload) => at <= c.Size() && payload == c.remote[at..SegEnd(at, c.Size())]
    case Tear(at, payload) => at <= c.Size() && payload <= c.remote[at..SegEnd(at, c.Size())]
    case _ => false
  }

  /** A run that started at byte `start` of a true prefix: what is below `start` is right, and so is
      every byte of every segment that has landed. */
  ghost predicate Progress<D>(c: Config<D>, s: State, start: nat) {
    && s.dest.None? && s.part.Some? && s.proc.Parallel? && s.proc.start == start && !s.proc.failed
    && Aligned(c, start, s.proc.next, s.proc.inflight) && Good(c, s.part.value, start, s.proc.next, s.proc.inflight)
  }

  /** Segments are taken in steps of the chunk from `start`. */
  ghost predicate Aligned<D>(c: Config<D>, start: nat, next: nat, inflight: set<nat>) {
    && start <= next && (next - start) % CHUNK == 0
    && forall at :: at in inflight ==> start <= at < next && at < c.Size() && (at - start) % CHUNK == 0
  }

  ghost predicate Good<D>(c: Config<D>, p: seq<Byte>, start: nat, next: nat, inflight: set<nat>) {
    && start <= |p| <= c.Size() && p[..start] == c.remote[..start]
    && LandedRight(c, p, start, next, inflight)
  }

  lemma AlignedBelow(start: nat, k: nat, next: nat)
    requires start <= k && start <= next && (next - start) % CHUNK == 0
    requires SegStart(start, k) < next + CHUNK
    ensures SegStart(start, k) < next || SegStart(start, k) == next
  {
  }

  lemma AlignedHolds(start: nat, k: nat, at: nat)
    requires start <= at && (at - start) % CHUNK == 0 && start <= k
    ensures SegStart(start, k) == at <==> at <= k < at + CHUNK
  {
    if at <= k < at + CHUNK {
      SegStartUnique(start, k, (at - start) / CHUNK);
    }
  }

  /** Every byte of a landed segment is right. */
  ghost predicate LandedRight<D>(c: Config<D>, p: seq<Byte>, start: nat, next: nat, inflight: set<nat>) {
    forall k :: start <= k < c.Size() && SegStart(start, k) < next && SegStart(start, k) !in inflight ==>
      k < |p| && p[k] == c.remote[k]
  }

  lemma LaunchKeeps<D>(c: Config<D>, p: seq<Byte>, start: nat, next: nat, inflight: set<nat>)
    requires start <= next && (next - start) % CHUNK == 0 && Good(c, p, start, next, inflight)
    ensures Good(c, p, start, next + CHUNK, inflight + {next})
  {
    forall k | start <= k < c.Size() && SegStart(start, k) < next + CHUNK && SegStart(start, k) !in inflight + {next}
      ensures k < |p| && p[k] == c.remote[k]
    {
      AlignedBelow(start, k, next);
    }
  }

  /** A write of the server's bytes inside one segment keeps the other landed segments; a whole one
      makes its own segment right. */
  lemma WriteKeeps<D>(c: Config<D>, p: seq<Byte>, start: nat, next: nat, inflight: set<nat>, at: nat, bytes: seq<Byte>)
    requires start <= at < c.Size() && (at - start) % CHUNK == 0 && at in inflight
    requires bytes <= c.remote[at..SegEnd(at, c.Size())]
    requires Good(c, p, start, next, inflight)
    ensures Good(c, WriteAt(p, at, bytes), start, next, inflight)
    ensures at + |bytes| == SegEnd(at, c.Size()) ==> Good(c, WriteAt(p, at, bytes), start, next, inflight - {at})
  {
    var q := WriteAt(p, at, bytes);
    assert q[..start] == p[..start];
    forall k | start <= k < c.Size() && SegStart(start, k) < next && SegStart(start, k) !in inflight - {at}
      ensures SegStart(start, k) != at ==> k < |q| && q[k] == c.remote[k]
      ensures SegStart(start, k) == at && at + |bytes| == SegEnd(at, c.Size()) ==> k < |q| && q[k] == c.remote[k]
    {
      AlignedHolds(start, k, at);
    }
  }

  lemma HonestLaunch<D>(c: Config<D>, s: State, start: nat)
    requires Progress(c, s, start) && Next(c, s, Launch).Some?
    ensures Progress(c, Next(c, s, Launch).value, start)
  {
    LaunchKeeps(c, s.part.value, start, s.proc.next, s.proc.inflight);
  }

  lemma HonestLand<D>(c: Config<D>, s: State, start: nat, at: nat, payload: seq<Byte>)
    requires Progress(c, s, start) && HonestEvent(c, Land(at, payload)) && Next(c, s, Land(at, payload)).Some?
    ensures Progress(c, Next(c, s, Land(at, payload)).value, start)
  {
    WriteKeeps(c, s.part.value, start, s.proc.next, s.proc.inflight, at, payload);
  }

  lemma HonestTear<D>(c: Config<D>, s: State, start: nat, at: nat, payload: seq<Byte>)
    requires Progress(c, s, start) && HonestEvent(c, Tear(at, payload)) && Next(c, s, Tear(at, payload)).Some?
    ensures Progress(c, Next(c, s, Tear(at, payload)).value, start)
  {
    WriteKeeps(c, s.part.value, start, s.proc.next, s.proc.inflight, at, payload);
  }

  lemma HonestStep<D>(c: Config<D>, s: State, start: nat, e: Event)
    requires Progress(c, s, start) && HonestEvent(c, e) && Next(c, s, e).Some?
    ensures Progress(c, Next(c, s, e).value, start)
  {
    match e
    case Launch => HonestLaunch(c, s, start);
    case Land(at, payload) => HonestLand(c, s, start, at, payload);
    case Tear(at, payload) => HonestTear(c, s, start, at, payload);
  }

  lemma {:induction false} HonestRunProgress<D>(c: Config<D>, s: State, start: nat, es: seq<Event>)
    requires Progress(c, s, start) && forall e :: e in es ==> HonestEvent(c, e)
    ensures Progress(c, Exec(c, s, es), start)
    decreases |es|
  {
    if es != [] {
      var init := es[..|es| - 1];
      assert es[|es| - 1] in es;
      HonestRunProgress(c, s, start, init);
      if Next(c, Exec(c, s, init), es[|es| - 1]).Some? {
        HonestStep(c, Exec(c, s, init), start, es[|es| - 1]);
      }
    }
  }

  lemma BeginProgress<D>(c: Config<D>, s: State)
    requires c.Size() > CHUNK && s.proc.Idle? && s.dest.None? && (s.part.Some? ==> s.part.value <= c.remote)
    ensures Next(c, s, Begin).Some?
    ensures var b := Next(c, s, Begin).value; b.proc.Parallel? && Progress(c, b, b.proc.start)
  {
  }

  lemma ByteRight<D>(c: Config<D>, t: State, start: nat, k: nat)
    requires Progress(c, t, start) && t.proc.inflight == {} && t.proc.next >= c.Size() && k < c.Size()
    ensures k < |t.part.value| && t.part.value[k] == c.remote[k]
  {
    if k >= start {
      assert SegStart(start, k) <= k;
    } else {
      assert t.part.value[..start][k] == c.remote[..start][k];
    }
  }

  lemma CompleteIsRemote<D>(c: Config<D>, t: State, start: nat)
    requires Progress(c, t, start) && t.proc.inflight == {} && t.proc.next >= c.Size()
    ensures t.part.value == c.remote
  {
    var p := t.part.value;
    if |p| < c.Size() {
      ByteRight(c, t, start, |p|);
    }
    forall k | 0 <= k < |p| ensures p[k] == c.remote[k] {
      ByteRight(c, t, start, k);
    }
  }

  /** Resuming a true prefix: once every segment has been taken and none is in flight, in whatever
      order they landed, the file is the server's and the gate renames it. */
  lemma ResumeGivesRemote<D>(c: Config<D>, s: State, es: seq<Event>)
    requires c.Honest() && c.Size() > CHUNK
    requires s.proc.Idle? && s.dest.None? && (s.part.Some? ==> s.part.value <= c.remote)
    requires forall e :: e in es ==> HonestEvent(c, e)
    ensures var t := Exec(c, Next(c, s, Begin).value, es);
            t.proc.Parallel? && (t.proc.inflight == {} && t.proc.next >= c.Size() ==>
              t.part == Some(c.remote) && Next(c, t, Finish) == Some(State(None, Some(c.remote), Idle)))
  {
    BeginProgress(c, s);
    var b := Next(c, s, Begin).value;
    HonestRunProgress(c, b, b.proc.start, es);
    var t := Exec(c, b, es);
    if t.proc.inflight == {} && t.proc.next >= c.Size() {
      CompleteIsRemote(c, t, b.proc.start);
    }
  }

  // ----- a wrong byte is never repaired

  /** A large download whose partial file has a byte the server's file does not have there, with
      every writer past it. */
  ghost predicate Doomed<D>(c: Config<D>, s: State, i: nat) {
    && c.Size() > CHUNK && s.dest.None? && s.part.Some? && i < |s.part.value|
    && (i >= c.Size() || s.part.value[i] != c.remote[i])
    && !s.proc.Stream?
    && (s.proc.Parallel? ==> i < s.proc.start <= s.proc.next)
    && (s.proc.Parallel? ==> forall at :: at in s.proc.inflight ==> s.proc.start <= at)
  }

  lemma {:induction false} DoomedForever<D>(c: Config<D>, s: State, i: nat, es: seq<Event>)
    requires c.Honest() && Doomed(c, s, i)
    ensures Doomed(c, Exec(c, s, es), i)
    decreases |es|
  {
    if es != [] {
      DoomedForever(c, s, i, es[..|es| - 1]);
      var t := Exec(c, s, es[..|es| - 1]);
      if es[|es| - 1] == Finish {
        assert t.part.value != c.remote;
      }
    }
  }

  // ----- exactly when a download can still finish

  /** Some continuation, however many runs and whatever bytes the server sends, puts the final name in place. */
  ghost predicate CanFinish<D>(c: Config<D>, s: State) {
    exists es :: Exec(c, s, es).dest.Some?
  }

  lemma {:induction false} ExecConcat<D>(c: Config<D>, s: State, a: seq<Event>, b: seq<Event>)
    ensures Exec(c, s, a + b) == Exec(c, Exec(c, s, a), b)
    decreases |b|
  {
    if b == [] {
      assert a + b == a;
    } else {
      ExecConcat(c, s, a, b[..|b| - 1]);
      assert (a + b)[..|a + b| - 1] == a + b[..|b| - 1];
    }
  }

  lemma ExecOne<D>(c: Config<D>, s: State, e: Event)
    ensures Exec(c, s, [e]) == if Next(c, s, e).Some? then Next(c, s, e).value else s
  {
    assert [e][..0] == [];
    assert Exec(c, s, []) == s;
  }

  /** One segment after the other. */
  function InOrder<D>(c: Config<D>, at: nat): seq<Event>
    decreases if at < c.Size() then c.Size() - at else 0
  {
    if at >= c.Size() then [] else
      [Launch, Land(at, c.remote[at..SegEnd(at, c.Size())])] + InOrder(c, at + CHUNK)
  }

  /** The server's bytes below `at`. */
  function UpTo(remote: seq<Byte>, at: nat): (r: seq<Byte>)
    ensures at >= |remote| ==> r == remote
  {
    if at < |remote| then remote[..at] else remote
  }

  lemma {:induction false} InOrderCompletes<D>(c: Config<D>, s: State, at: nat)
    requires s.proc.Parallel? && s.proc.next == at && s.proc.inflight == {} && !s.proc.failed
    requires s.part == Some(UpTo(c.remote, at))
    ensures var t := Exec(c, s, InOrder(c, at));
            t.part == Some(c.remote) && t.dest == s.dest && t.proc.Parallel?
            && t.proc.inflight == {} && !t.proc.failed && t.proc.next >= c.Size()
    decreases if at < c.Size() then c.Size() - at else 0
  {
    if at < c.Size() {
      var land := Land(at, c.remote[at..SegEnd(at, c.Size())]);
      var s1 := Next(c, s, Launch).value;
      var s2 := Next(c, s1, land).value;
      ExecOne(c, s, Launch);
      ExecOne(c, s1, land);
      assert [Launch] + [land] == [Launch, land];
      ExecConcat(c, s, [Launch], [land]);
      ExecConcat(c, s, [Launch, land], InOrder(c, at + CHUNK));
      assert s2.part.value == UpTo(c.remote, at + CHUNK);
      assert s2.proc.inflight == {};
      InOrderCompletes(c, s2, at + CHUNK);
    }
  }

  lemma PrefixCanFinish<D>(c: Config<D>, s: State)
    requires c.Honest() && c.Size() > CHUNK && s.proc.Idle? && s.dest.None?
    requires s.part.Some? ==> s.part.value <= c.remote
    ensures CanFinish(c, s)
  {
    var b := Next(c, s, Begin).value;
    var run := InOrder(c, b.proc.start);
    assert b.part.value == UpTo(c.remote, b.proc.start);
    InOrderCompletes(c, b, b.proc.start);
    ExecOne(c, s, Begin);
    ExecConcat(c, s, [Begin], run);
    var t := Exec(c, b, run);
    ExecOne(c, t, Finish);
    ExecConcat(c, s, [Begin] + run, [Finish]);
    assert Exec(c, s, [Begin] + run + [Finish]).dest.Some?;
  }

  /** The streaming path truncates first, so any partial file is repaired. */
  lemma SmallCanFinish<D>(c: Config<D>, s: State)
    requires c.Honest() && c.Size() <= CHUNK && s.proc.Idle? && s.dest.None?
    ensures CanFinish(c, s)
  {
    var s1 := Next(c, s, Begin).value;
    var s2 := Next(c, s1, Data(c.remote)).value;
    assert s2.part.value == c.remote;
    ExecOne(c, s, Begin);
    ExecOne(c, s1, Data(c.remote));
    ExecOne(c, s2, Finish);
    ExecConcat(c, s, [Begin], [Data(c.remote)]);
    ExecConcat(c, s, [Begin] + [Data(c.remote)], [Finish]);
    assert Exec(c, s, [Begin] + [Data(c.remote)] + [Finish]).dest.Some?;
  }

  /** Between runs, a download can still finish exactly when it is small or its partial file is a true
      prefix of the server's; otherwise every later run refuses it, whatever the server sends. */
  lemma CanFinishIff<D>(c: Config<D>, s: State)
    requires c.Honest() && s.proc.Idle? && s.dest.None?
    ensures CanFinish(c, s) <==> c.Size() <= CHUNK || s.part.None? || s.part.value <= c.remote
  {
    if c.Size() <= CHUNK {
      SmallCanFinish(c, s);
    } else if s.part.None? || s.part.value <= c.remote {
      PrefixCanFinish(c, s);
    } else {
      var p := s.part.value;
      var i: nat := if |p| > c.Size() then |p| - 1 else FirstDifference(p, c.remote);
      forall es ensures Exec(c, s, es).dest.None? {
        DoomedForever(c, s, i, es);
      }
    }
  }

  function FirstDifference(p: seq<Byte>, r: seq<Byte>): (i: nat)
    requires |p| <= |r| && !(p <= r)
    ensures i < |p| && p[i] != r[i]
  {
    if p[0] != r[0] then 0 else
      assert p == [p[0]] + p[1..] && r == [r[0]] + r[1..];
      FirstDifference(p[1..], r[1..]) + 1
  }

  /** Such a partial file is one crash away: two writers of an honest first run, the second lands, the
      process dies. If the first segment is not all zeros the download can never finish again. */
  lemma OutOfOrderCrash<D>(c: Config<D>, i: nat)
    requires c.Honest() && c.Size() > CHUNK && i < CHUNK && c.remote[i] != 0
    ensures var es := [Begin, Launch, Launch, Land(CHUNK, c.remote[CHUNK..SegEnd(CHUNK, c.Size())]), Crash];
            var t := Exec(c, State(None, None, Idle), es);
            t.proc.Idle? && t.dest.None? && !CanFinish(c, t)
  {
    var land := Land(CHUNK, c.remote[CHUNK..SegEnd(CHUNK, c.Size())]);
    var es := [Begin, Launch, Launch, land, Crash];
    var s0 := State(None, None, Idle);
    var s1 := Next(c, s0, Begin).value;
    var s2 := Next(c, s1, Launch).value;
    var s3 := Next(c, s2, Launch).value;
    var s4 := Next(c, s3, land).value;
    var s5 := Next(c, s4, Crash).value;
    assert es[..1] == [Begin] && es[..2] == [Begin] + [Launch] && es[..3] == es[..2] + [Launch]
      && es[..4] == es[..3] + [land] && es == es[..4] + [Crash];
    ExecOne(c, s0, Begin);
    ExecOne(c, s1, Launch);
    ExecConcat(c, s0, [Begin], [Launch]);
    ExecOne(c, s2, Launch);
    ExecConcat(c, s0, es[..2], [Launch]);
    ExecOne(c, s3, land);
    ExecConcat(c, s0, es[..3], [land]);
    ExecOne(c, s4, Crash);
    ExecConcat(c, s0, es[..4], [Crash]);
    assert s5.part.value[i] == 0;
    CanFinishIff(c, s5);
  }

  // ----- the writers

  /** At most eight segments are being written, all of them taken in steps of the chunk since the run
      began; hence none is ever taken twice in one run. */
  ghost predicate EightWriters(p: Proc) {
    p.Parallel? ==>
      && |p.inflight| <= 8 && p.start <= p.next && (p.next - p.start) % CHUNK == 0
      && forall at :: at in p.inflight ==> p.start <= at < p.next
  }

  lemma {:induction false} WritersBounded<D>(c: Config<D>, s: State, es: seq<Event>)
    requires s.proc.Idle?
    ensures EightWriters(Exec(c, s, es).proc)
    decreases |es|
  {
    if es != [] {
      WritersBounded(c, s, es[..|es| - 1]);
      var t := Exec(c, s, es[..|es| - 1]);
      if Next(c, t, es[|es| - 1]).Some? {
        NextKeepsWriters(c, t, es[|es| - 1]);
      }
    }
  }

  lemma NextKeepsWriters<D>(c: Config<D>, s: State, e: Event)
    requires EightWriters(s.proc) && Next(c, s, e).Some?
    ensures EightWriters(Next(c, s, e).value.proc)
  {
  }

  // ----- the steps in place

  /** An existing file is kept or refused, a partial file that is too long is refused, or a run begins. */
  datatype Verdict = Kept | Refused | Running

  /** `now` is `was` with the bytes at `at`, and zeros in any gap before them. */
  ghost predicate Wrote(was: seq<Byte>, at: nat, bytes: seq<Byte>, now: seq<Byte>) {
    && |now| == (if at + |bytes| > |was| then at + |bytes| else |was|)
    && (forall i :: at <= i < at + |bytes| ==> now[i] == bytes[i - at])
    && (forall i :: 0 <= i < |was| && (i < at || at + |bytes| <= i) ==> now[i] == was[i])
    && (forall i :: |was| <= i < at ==> now[i] == 0)
  }

  /** The files and the process, changed in place by one step at a time. */
  class Downloader<D(==)> {
    const c: Config<D>
    var part: Option<seq<Byte>>
    var dest: Option<seq<Byte>>
    var proc: Proc

    function View(): State
      reads this
    {
      State(part, dest, proc)
    }

    constructor (c: Config<D>, part: Option<seq<Byte>>, dest: Option<seq<Byte>>)
      ensures this.c == c && View() == State(part, dest, Idle)
    {
      this.c, this.part, this.dest, this.proc := c, part, dest, Idle;
    }

    /** `get` up to the point where workers run: an existing file is kept or refused; a large download
        resumes at the end of its partial file, refused when that is too long; a small one starts over. */
    method Start() returns (v: Verdict)
      requires proc.Idle?
      modifies this
      ensures View() == Next(c, old(View()), Begin).value
      ensures dest == old(dest) && (!v.Running? ==> View() == old(View()))
      ensures v == Kept <==> dest.Some? && |dest.value| == |c.remote| && c.hash(dest.value) == c.sha
      ensures v.Running? <==> dest.None? && (|c.remote| > CHUNK && old(part).Some? ==> |old(part).value| <= |c.remote|)
      ensures v.Running? && |c.remote| <= CHUNK ==> part == Some([]) && proc == Stream
      ensures v.Running? && |c.remote| > CHUNK ==>
        && part == (if old(part).Some? then old(part) else Some([]))
        && proc == Parallel(|part.value|, |part.value|, {}, false)
    {
      if dest.Some? {
        if |dest.value| == c.Size() && c.hash(dest.value) == c.sha {
          return Kept;
        }
        return Refused;
      }
      if c.Size() > CHUNK {
        var start := if part.Some? then |part.value| else 0;
        if start > c.Size() {
          return Refused;
        }
        if part.None? {
          part := Some([]);
        }
        proc := Parallel(start, start, {}, false);
      } else {
        part := Some([]);
        proc := Stream;
      }
      v := Running;
    }

    /** One worker's `segment`: a response of the segment's length is written at its place, with zeros in
        any gap before it; one of another length fails the run and writes nothing. */
    method Segment(at: nat, payload: seq<Byte>)
      requires Writing(c, View(), at)
      modifies this
      ensures View() ==
        Next(c, old(View()), if |payload| == SegEnd(at, c.Size()) - at then Land(at, payload) else Fail(at)).value
      ensures dest == old(dest) && part.Some? && proc.Parallel? && proc.inflight == old(proc.inflight) - {at}
      ensures proc.start == old(proc.start) && proc.next == old(proc.next)
      ensures var whole := |payload| == if at + CHUNK < |c.remote| then CHUNK else |c.remote| - at;
        && (proc.failed <==> old(proc.failed) || !whole)
        && (if whole then Wrote(old(part.value), at, payload, part.value) else part == old(part))
    {
      if |payload| == SegEnd(at, c.Size()) - at {
        part := Some(WriteAt(part.value, at, payload));
        proc := proc.(inflight := proc.inflight - {at});
      } else {
        proc := proc.(inflight := proc.inflight - {at}, failed := true);
      }
    }

    /** Size, hash, rename. Reports whether the final name is now in place: exactly when no segment failed
        and the partial file has the manifest's size and hash. */
    method Finalize() returns (renamed: bool)
      requires Next(c, View(), Finish).Some?
      modifies this
      ensures View() == Next(c, old(View()), Finish).value
      ensures renamed <==>
        && !(old(proc).Parallel? && old(proc.failed))
        && |old(part.value)| == |c.remote| && c.hash(old(part.value)) == c.sha
      ensures renamed ==> dest == old(part) && part.None?
      ensures proc == Idle
      ensures !renamed ==> dest == old(dest) && part == old(part)
    {
      renamed := false;
      if proc.Parallel? && proc.failed {
        proc := Idle;
        return;
      }
      if |part.value| == c.Size() && c.hash(part.value) == c.sha {
        dest := part;
        part := None;
        renamed := true;
      }
      proc := Idle;
    }
  }
}
