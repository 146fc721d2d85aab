/**
 The epoch protocol by which a dump reads the counters of running threads (prof_malloc, prof_free and
 prof_realloc in prof.h, the loop in prof_dump_ctx_prep in prof.c).  Each memory access is a step; between
 two barriers the accesses may come in any order.
 */
module Seqlock {

  import opened Machine

  /** curobjs, curbytes, accumobjs, accumbytes */
  const FIELDS: nat := 4

  type Values = s: seq<int> | |s| == FIELDS witness [0, 0, 0, 0]

  /** Adding an amount to a field. */
  datatype Change = Change(field: nat, amount: int)

  /** The writer is between updates, or has raised the epoch by bump and still has some changes to make. */
  datatype Writer = Quiet | Busy(todo: seq<Change>, bump: nat)

  /** The reader starts over, or has seen epoch n0 after k updates and read some fields. */
  datatype Reader = Start | Reading(n0: nat, k: nat, got: map<nat, int>)

  /**
   A snapshot that the loop accepted, by how much the epoch rose while it was read, and after how many updates it began.
   */
  datatype Snapshot = Snapshot(vals: Values, rise: nat, k: nat)

  /** n counts the increments of the epoch, which is n modulo the word; hist holds the values between updates. */
  datatype State = State(n: nat, vals: Values, writer: Writer, reader: Reader, hist: seq<Values>,
      accepted: seq<Snapshot>)

  datatype Action = Begin(changes: seq<Change>, bump: nat) | Write(i: nat) | End | ReadEpoch | ReadField(field: nat)
      | Check

  function Init(v: Values): State {
    State(0, v, Quiet, Start, [v], [])
  }

  function Step(s: State, a: Action): State {
    match a
    case Begin(changes, bump) => if s.writer.Quiet? then s.(n := s.n + bump, writer := Busy(changes, bump)) else s
    case Write(i) =>
      if s.writer.Busy? && i < |s.writer.todo| then
        var c := s.writer.todo[i];
        s.(vals := if c.field < FIELDS then s.vals[c.field := s.vals[c.field] + c.amount] else s.vals,
           writer := s.writer.(todo := s.writer.todo[..i] + s.writer.todo[i + 1..]))
      else s
    case End =>
      if s.writer.Busy? && s.writer.todo == []
          then s.(n := s.n + s.writer.bump, writer := Quiet, hist := s.hist + [s.vals]) else s
    case ReadEpoch =>
      // An odd epoch sends the loop back to its start.
      if s.reader.Start? && s.n % WORD % 2 == 0 then s.(reader := Reading(s.n, |s.hist|, map[])) else s
    case ReadField(f) =>
      if s.reader.Reading? && f < FIELDS
          && f !in s.reader.got then s.(reader := s.reader.(got := s.reader.got[f := s.vals[f]])) else s
    case Check =>
      if s.reader.Reading? && forall f :: 0 <= f < FIELDS ==> f in s.reader.got then
        if s.n % WORD == s.reader.n0 % WORD then
          var vals := seq(FIELDS, f requires 0 <= f < FIELDS => s.reader.got[f]);
          var rise := if s.reader.n0 <= s.n then s.n - s.reader.n0 else 0;
          s.(reader := Start, accepted := s.accepted + [Snapshot(vals, rise, s.reader.k)])
        else s.(reader := Start)
      else s
  }

  function Run(s: State, trace: seq<Action>): State {
    if trace == [] then s else Step(Run(s, trace[..|trace| - 1]), trace[|trace| - 1])
  }

  // ----- One increment before and one after an update

  /** A snapshot is what the counters were when reading it began. */
  ghost predicate IsSettled(hist: seq<Values>, x: Snapshot) {
    0 < x.k <= |hist| && x.vals == hist[x.k - 1]
  }

  ghost predicate Sound(s: State) {
    && (s.writer.Quiet? ==> s.n == 2 * (|s.hist| - 1) && s.hist != [] && s.vals == s.hist[|s.hist| - 1])
    && (s.writer.Busy? ==> s.n == 2 * (|s.hist| - 1) + 1 && s.hist != [] && s.writer.bump == 1)
    && (s.reader.Reading? ==>
          && s.reader.n0 <= s.n && s.reader.n0 == 2 * (s.reader.k - 1) && 0 < s.reader.k <= |s.hist|
          && (s.n == s.reader.n0 ==> forall f :: f in s.reader.got && f < FIELDS ==> s.reader.got[f] == s.vals[f]))
    && (forall i :: 0 <= i < |s.accepted| && s.accepted[i].rise < WORD ==> IsSettled(s.hist, s.accepted[i]))
  }

  /** Equal epochs with a rise of less than a word are the same epoch. */
  lemma SameEpoch(n: nat, n0: nat)
    requires n0 <= n && n % WORD == n0 % WORD && n - n0 < WORD
    ensures n == n0
  {
  }

  lemma EvenEpoch(n: nat)
    ensures n % WORD % 2 == n % 2
  {
  }

  lemma CheckSound(s: State)
    requires Sound(s)
    ensures Sound(Step(s, Check))
  {
    var s' := Step(s, Check);
    if |s'.accepted| > |s.accepted| {
      var x := s'.accepted[|s.accepted|];
      if x.rise < WORD {
        SameEpoch(s.n, s.reader.n0);
        assert x.vals == s.vals;
        assert |s.hist| == s.reader.k && s.vals == s.hist[|s.hist| - 1];
      }
    }
  }

  lemma StepSound(s: State, a: Action)
    requires Sound(s) && (a.Begin? ==> a.bump == 1)
    ensures Sound(Step(s, a))
  {
    match a
    case Check => CheckSound(s);
    case ReadEpoch => EvenEpoch(s.n);
    case End =>
      assert forall x :: IsSettled(s.hist, x) ==> IsSettled(s.hist + [s.vals], x);
    case _ =>
  }

  /** No update raises the epoch twice in a row. */
  ghost predicate Single(trace: seq<Action>) {
    forall i :: 0 <= i < |trace| && trace[i].Begin? ==> trace[i].bump == 1
  }

  lemma {:induction false} RunSound(v: Values, trace: seq<Action>)
    requires Single(trace)
    ensures Sound(Run(Init(v), trace))
  {
    if trace != [] {
      RunSound(v, trace[..|trace| - 1]);
      StepSound(Run(Init(v), trace[..|trace| - 1]), trace[|trace| - 1]);
    }
  }

  /** The state after so many actions. */
  ghost function At(v: Values, trace: seq<Action>, m: nat): State
    requires m <= |trace|
  {
    Run(Init(v), trace[..m])
  }

  lemma AtPrefix(v: Values, trace: seq<Action>, m: nat)
    requires trace != [] && m <= |trace| - 1
    ensures At(v, trace[..|trace| - 1], m) == At(v, trace, m) && At(v, trace, |trace|) == Run(Init(v), trace)
    ensures At(v, trace, |trace| - 1) == Run(Init(v), trace[..|trace| - 1])
  {
    assert trace[..|trace| - 1][..m] == trace[..m] && trace[..|trace|] == trace;
  }

  /** At so many actions reading began, between two updates, after the k-th settled values. */
  ghost predicate Began(v: Values, trace: seq<Action>, m: nat, k: nat) {
    && m < |trace| && trace[m] == ReadEpoch && At(v, trace, m).writer.Quiet? && |At(v, trace, m).hist| == k
  }

  /** A reader has been reading all the time since. */
  ghost predicate Since(v: Values, trace: seq<Action>, m: nat, end: nat)
    requires end <= |trace|
  {
    forall j: nat :: m < j <= end ==> At(v, trace, j).reader.Reading?
  }

  lemma SincePrefix(v: Values, trace: seq<Action>, m: nat, end: nat)
    requires trace != [] && end <= |trace| - 1
    ensures Since(v, trace[..|trace| - 1], m, end) ==> Since(v, trace, m, end)
  {
    hide At;
    if Since(v, trace[..|trace| - 1], m, end) {
      forall j: nat | m < j <= end
        ensures At(v, trace, j).reader.Reading?
      {
        AtPrefix(v, trace, j);
        assert At(v, trace[..|trace| - 1], j).reader.Reading?;
      }
    }
  }

  lemma StepBegins(s: State)
    requires Sound(s) && s.reader.Start? && Step(s, ReadEpoch).reader.Reading?
    ensures s.writer.Quiet? && Step(s, ReadEpoch).reader.k == |s.hist| && Step(s, ReadEpoch).hist == s.hist
  {
    hide Sound;
    EvenEpoch(s.n);
    QuietIfEven(s);
  }

  lemma StepReads(s: State, a: Action)
    requires Step(s, a).reader.Reading? && !(a == ReadEpoch && s.reader.Start?)
    ensures s.reader.Reading? && Step(s, a).reader.k == s.reader.k && s.hist <= Step(s, a).hist
  {
  }

  /** A reader that is reading began between two updates. */
  lemma {:induction false} ReadingBegan(v: Values, trace: seq<Action>) returns (m: nat)
    requires Single(trace) && Run(Init(v), trace).reader.Reading?
    ensures Began(v, trace, m, Run(Init(v), trace).reader.k)
    ensures At(v, trace, m).hist <= Run(Init(v), trace).hist && Since(v, trace, m, |trace|)
  {
    hide Sound, Single, Since, Step, At;
    var n := |trace| - 1;
    var t := trace[..n];
    var s := Run(Init(v), t);
    AtPrefix(v, trace, n);
    if trace[n] == ReadEpoch && s.reader.Start? {
      m := n;
      SinceLast(v, trace);
      SingleSound(v, trace);
      StepBegins(s);
    } else {
      StepReads(s, trace[n]);
      SingleInit(trace);
      m := ReadingBegan(v, t);
      AtPrefix(v, trace, m);
      SincePrefix(v, trace, m, n);
      SinceMore(v, trace, m, n);
    }
  }

  lemma SinceLast(v: Values, trace: seq<Action>)
    requires trace != [] && Run(Init(v), trace).reader.Reading?
    ensures Since(v, trace, |trace| - 1, |trace|)
  {
    assert trace[..|trace|] == trace;
  }

  lemma SinceMore(v: Values, trace: seq<Action>, m: nat, n: nat)
    requires |trace| == n + 1 && Since(v, trace, m, n) && Run(Init(v), trace).reader.Reading?
    ensures Since(v, trace, m, |trace|)
  {
    assert trace[..|trace|] == trace;
  }

  lemma SingleInit(trace: seq<Action>)
    requires Single(trace) && trace != []
    ensures Single(trace[..|trace| - 1])
  {
  }

  lemma SingleSound(v: Values, trace: seq<Action>)
    requires Single(trace) && trace != []
    ensures Sound(Run(Init(v), trace[..|trace| - 1]))
  {
    SingleInit(trace);
    RunSound(v, trace[..|trace| - 1]);
  }

  lemma QuietIfEven(s: State)
    requires Sound(s) && s.n % 2 == 0
    ensures s.writer.Quiet?
  {
  }

  /** A snapshot comes of a check, and of the reading before it. */
  lemma {:induction false} SnapshotBegan(v: Values, trace: seq<Action>, i: nat) returns (m: nat, end: nat)
    requires Single(trace) && i < |Run(Init(v), trace).accepted|
    ensures m < end < |trace| && trace[end] == Check && Began(v, trace, m, Run(Init(v), trace).accepted[i].k)
    ensures |At(v, trace, end).accepted| == i
    ensures At(v, trace, m).hist <= Run(Init(v), trace).hist && Since(v, trace, m, end)
  {
    var n := |trace| - 1;
    var t := trace[..n];
    SingleInit(trace);
    hide Sound, Single;
    if i < |Run(Init(v), t).accepted| {
      m, end := SnapshotBegan(v, t, i);
      AtPrefix(v, trace, end);
    } else {
      end := n;
      m := ReadingBegan(v, t);
    }
    AtPrefix(v, trace, m);
    SincePrefix(v, trace, m, end);
  }

  /**
   Every snapshot that a dump accepts is what the counters were at one moment between updates, unless the epoch came
   round in the meantime: at the moment when reading this snapshot began.
   */
  lemma SnapshotsConsistent(v: Values, trace: seq<Action>, i: nat) returns (m: nat, end: nat)
    requires Single(trace) && i < |Run(Init(v), trace).accepted| && Run(Init(v), trace).accepted[i].rise < WORD
    ensures m < end < |trace| && trace[m] == ReadEpoch && trace[end] == Check
    ensures |At(v, trace, end).accepted| == i && Since(v, trace, m, end)
    ensures At(v, trace, m).writer.Quiet? && At(v, trace, m).vals == Run(Init(v), trace).accepted[i].vals
  {
    m, end := SnapshotBegan(v, trace, i);
    RunSound(v, trace);
    RunSound(v, trace[..m]);
  }

  // ----- What the counters count

  /** By how much some changes alter a field. */
  ghost function Sum(todo: seq<Change>, f: nat): int {
    if todo == [] then 0 else Sum(todo[1..], f) + (if todo[0].field == f then todo[0].amount else 0)
  }

  /** A field with the changes of the update in progress that are still to come. */
  ghost function Due(s: State, f: nat): int
    requires f < FIELDS
  {
    s.vals[f] + (if s.writer.Busy? then Sum(s.writer.todo, f) else 0)
  }

  /** What the updates begun in a run add to a field. */
  ghost function Begun(s: State, trace: seq<Action>, f: nat): int {
    if trace == [] then 0 else
      var n := |trace| - 1;
      var idle := Run(s, trace[..n]).writer.Quiet?;
      Begun(s, trace[..n], f) + (if trace[n].Begin? && idle then Sum(trace[n].changes, f) else 0)
  }

  lemma {:induction false} SumWithout(todo: seq<Change>, i: nat, f: nat)
    requires i < |todo|
    ensures Sum(todo[..i] + todo[i + 1..], f) + (if todo[i].field == f then todo[i].amount else 0) == Sum(todo, f)
  {
    var rest := todo[..i] + todo[i + 1..];
    if i == 0 {
      assert rest == todo[1..];
    } else {
      SumWithout(todo[1..], i - 1, f);
      assert rest[1..] == todo[1..][..i - 1] + todo[1..][i..] && todo[1..][i..] == todo[i + 1..];
    }
  }

  lemma StepDue(s: State, a: Action, f: nat)
    requires f < FIELDS
    ensures Due(Step(s, a), f)
        == Due(s, f) + (if a.Begin? && s.writer.Quiet? then Sum(a.changes, f) else 0)
  {
    if a.Write? && s.writer.Busy? && a.i < |s.writer.todo| {
      SumWithout(s.writer.todo, a.i, f);
    }
  }

  /** In whatever order an update writes its fields, every change comes in once: none is lost and none counted twice. */
  lemma {:induction false} NoneLost(s: State, trace: seq<Action>, f: nat)
    requires s.writer.Quiet? && f < FIELDS
    ensures Due(Run(s, trace), f) == s.vals[f] + Begun(s, trace, f)
    ensures Run(s, trace).writer.Quiet? ==> Run(s, trace).vals[f] == s.vals[f] + Begun(s, trace, f)
  {
    hide Step;
    if trace != [] {
      NoneLost(s, trace[..|trace| - 1], f);
      StepDue(Run(s, trace[..|trace| - 1]), trace[|trace| - 1], f);
    }
  }

  // ----- prof_realloc with the same counter for the old and the new object

  lemma {:induction false} RunConcat(s: State, x: seq<Action>, y: seq<Action>)
    ensures Run(s, x + y) == Run(Run(s, x), y)
  {
    if y == [] {
      assert x + y == x;
    } else {
      RunConcat(s, x, y[..|y| - 1]);
      assert (x + y)[..|x + y| - 1] == x + y[..|y| - 1];
    }
  }

  lemma RunTwo(s: State, a: Action, b: Action)
    ensures Run(s, [a]) == Step(s, a) && Run(s, [a, b]) == Step(Step(s, a), b)
  {
    assert [a][..0] == [] && [a, b][..1] == [a];
  }

  /** prof_malloc and prof_free, with opt_prof_accum off */
  function MallocChanges(size: nat): seq<Change> {
    [Change(0, 1), Change(1, size)]
  }

  function FreeChanges(size: nat): seq<Change> {
    [Change(0, -1), Change(1, 0 - size)]
  }

  /** prof_realloc from one size to another when both objects belong to the same counter. */
  function ReallocChanges(from: nat, to: nat): seq<Change> {
    FreeChanges(from) + MallocChanges(to)
  }

  const READ: seq<Action> := [ReadEpoch, ReadField(0)] + [ReadField(1), ReadField(2)] + [ReadField(3), Check]

  ghost function Seen(s: State, k: nat): Reader
    requires k <= FIELDS
  {
    Reading(s.n, |s.hist|, map f: nat | f < k :: s.vals[f])
  }

  lemma ReadOne(s: State, k: nat)
    requires k < FIELDS
    ensures Step(s.(reader := Seen(s, k)), ReadField(k)) == s.(reader := Seen(s, k + 1))
  {
    assert Seen(s, k + 1).got == Seen(s, k).got[k := s.vals[k]];
  }

  lemma ReadStart(s: State)
    requires s.reader.Start? && s.n % WORD % 2 == 0
    ensures Step(s, ReadEpoch) == s.(reader := Seen(s, 0))
  {
    assert Seen(s, 0).got == map[];
  }

  lemma ReadDone(s: State)
    ensures Step(s.(reader := Seen(s, FIELDS)), Check)
        == s.(reader := Start, accepted := s.accepted + [Snapshot(s.vals, 0, |s.hist|)])
  {
    var r := Seen(s, FIELDS);
    assert forall f :: 0 <= f < FIELDS ==> f in r.got && r.got[f] == s.vals[f];
    assert seq(FIELDS, f requires 0 <= f < FIELDS => r.got[f]) == s.vals;
  }

  /** A dump that reads without interruption accepts what is there whenever the epoch is even. */
  lemma ReadAll(s: State)
    requires s.reader.Start? && s.n % WORD % 2 == 0
    ensures Run(s, READ) == s.(accepted := s.accepted + [Snapshot(s.vals, 0, |s.hist|)])
  {
    hide Step, Seen, Run;
    var s1, s2 := s.(reader := Seen(s, 1)), s.(reader := Seen(s, 3));
    ReadStart(s);
    ReadOne(s, 0);
    ReadOne(s, 1);
    ReadOne(s, 2);
    ReadOne(s, 3);
    ReadDone(s);
    RunTwo(s, ReadEpoch, ReadField(0));
    RunTwo(s1, ReadField(1), ReadField(2));
    RunTwo(s2, ReadField(3), Check);
    RunConcat(s, [ReadEpoch, ReadField(0)], [ReadField(1), ReadField(2)]);
    RunConcat(s, [ReadEpoch, ReadField(0)] + [ReadField(1), ReadField(2)], [ReadField(3), Check]);
  }

  /** A dump that finds another epoch than before takes nothing of what it has read, and then reads all again. */
  lemma ReadAgain(s: State)
    requires s.reader.Reading? && (forall f: nat :: f < FIELDS ==> f in s.reader.got)
    requires s.n % WORD != s.reader.n0 % WORD && s.n % WORD % 2 == 0
    ensures Run(s, [Check] + READ)
        == s.(reader := Start, accepted := s.accepted + [Snapshot(s.vals, 0, |s.hist|)])
  {
    RunTwo(s, Check, Check);
    var s' := Step(s, Check);
    assert s' == s.(reader := Start);
    hide Step, Run;
    RunConcat(s, [Check], READ);
    ReadAll(s');
  }

  /** The first half of such an update, up to the moment when one object too few is counted. */
  lemma TornBefore(s: State, from: nat, to: nat)
    requires s.writer.Quiet?
    ensures Run(s, [Begin(ReallocChanges(from, to), 2), Write(0)])
            == s.(n := s.n + 2, vals := s.vals[0 := s.vals[0] - 1],
                writer := Busy([Change(1, 0 - from), Change(0, 1), Change(1, to)], 2))
  {
    var todo := ReallocChanges(from, to);
    RunTwo(s, Begin(todo, 2), Write(0));
    assert todo[..0] + todo[1..] == [Change(1, 0 - from), Change(0, 1), Change(1, to)];
  }

  lemma TornAfter(s: State, from: nat, to: nat)
    requires s.writer == Busy([Change(1, 0 - from), Change(0, 1), Change(1, to)], 2)
    ensures var s' := Run(s, [Write(0), Write(0)] + [Write(0), End]);
      s'.writer.Quiet? && s'.accepted == s.accepted && exists z: Values ::
          s'.hist == s.hist + [z] && z[0] == s.vals[0] + 1
  {
    hide Run;
    var x := s.vals[1 := s.vals[1] - from];
    var y := x[0 := x[0] + 1];
    var s2 := s.(vals := y, writer := Busy([Change(1, to)], 2));
    assert [Change(1, 0 - from), Change(0, 1), Change(1, to)][1..] == [Change(0, 1), Change(1, to)];
    assert [Change(0, 1), Change(1, to)][1..] == [Change(1, to)] && [Change(1, to)][1..] == [];
    assert Step(Step(s, Write(0)), Write(0)) == s2;
    RunTwo(s, Write(0), Write(0));
    RunTwo(s2, Write(0), End);
    RunConcat(s, [Write(0), Write(0)], [Write(0), End]);
  }

  /**
   Both increments before such an update hit one epoch, which is even again while the update goes on: from any sound
   state a dump accepts counters with one object too few, although there are as many objects before the update as
   after it.
   */
  lemma Torn(s: State, from: nat, to: nat) returns (trace: seq<Action>)
    requires Sound(s) && s.writer.Quiet? && s.reader.Start?
    ensures forall i :: 0 <= i < |trace| && trace[i].Begin? ==> trace[i] == Begin(ReallocChanges(from, to), 2)
    ensures var s' := Run(s, trace);
      && s'.writer.Quiet?
      && exists x: Snapshot, z: Values ::
        && s'.accepted == s.accepted + [x] && s'.hist == s.hist + [z]
        && x.rise == 0 && x.vals[0] == s.vals[0] - 1 && z[0] == s.vals[0]
  {
    var before, after := [Begin(ReallocChanges(from, to), 2), Write(0)], [Write(0), Write(0)] + [Write(0), End];
    trace := before + READ + after;
    TornBefore(s, from, to);
    EvenEpoch(s.n + 2);
    hide Sound;
    var t := Run(s, before);
    ReadAll(t);
    TornAfter(Run(t, READ), from, to);
    RunConcat(s, before, READ);
    RunConcat(s, before + READ, after);
    var z: Values :| Run(s, trace).hist == s.hist + [z] && z[0] == s.vals[0];
    assert Run(s, trace).accepted == s.accepted + [Snapshot(t.vals, 0, |t.hist|)];
  }
}
