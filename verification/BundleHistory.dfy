/**
 * One PDR's tc_bundle value under one writer and any number of packets that each look the whole value up at once.
 * Map operations on other keys do not touch it.
 */
module BundleHistory {
  import opened Words
  import opened TcBundle

  /** modify_tc_bundle between its map operations: after the lookup, and after the first write. */
  datatype Writer = Free | Prepared(w: Writes, next: Tuple) | Staging(w: Writes, next: Tuple)

  /** A packet's decision, and where in the history of commits it stands: install number and commit number. */
  datatype Seen = Seen(install: nat, commit: nat, tuple: Tuple)

  /** The map entry, the writer, the commits since each install, and every decision taken so far. */
  datatype State = State(entry: Option<seq<byte>>, writer: Writer, commits: seq<seq<Tuple>>, seen: seq<Seen>)

  datatype Step = Install(t: Tuple) | Remove | Begin(c: Change) | Write1 | Write2 | Packet

  const INIT := State(None, Free, [], [])

  predicate Enabled(s: State, step: Step) {
    match step
    case Install(_) => s.writer.Free?
    case Remove => s.writer.Free?
    case Begin(_) => s.writer.Free?
    case Write1 => s.writer.Prepared?
    case Write2 => s.writer.Staging? && s.commits != []
    case Packet => s.entry.Some? ==> IsBundle(s.entry.value) && s.commits != [] && s.commits[|s.commits| - 1] != []
  }

  function Next(s: State, step: Step): State
    requires Enabled(s, step)
  {
    match step
    case Install(t) => s.(entry := Some(EncBundle(0, EncSlot(t), EncSlot(t))), commits := s.commits + [[t]])
    case Remove => s.(entry := None)
    case Begin(c) =>
      // a missing key or a value out of range raises before anything is written
      if s.entry.None? || !IsBundle(s.entry.value) || Modify(s.entry.value, c).None? then s
      else s.(writer := Prepared(Modify(s.entry.value, c).value, Apply(Live(s.entry.value), c).value))
    case Write1 => s.(entry := Some(s.writer.w.step1), writer := Staging(s.writer.w, s.writer.next))
    case Write2 =>
      var last := |s.commits| - 1;
      s.(entry := Some(s.writer.w.step2), writer := Free,
         commits := s.commits[last := s.commits[last] + [s.writer.next]])
    case Packet =>
      if s.entry.None? then s
      else s.(seen := s.seen + [Seen(|s.commits| - 1, |s.commits[|s.commits| - 1]| - 1, Live(s.entry.value))])
  }

  predicate Legal(s: State, steps: seq<Step>)
    decreases |steps|
  {
    steps == [] || (Enabled(s, steps[0]) && Legal(Next(s, steps[0]), steps[1..]))
  }

  function Exec(s: State, steps: seq<Step>): State
    requires Legal(s, steps)
    decreases |steps|
  {
    if steps == [] then s else Exec(Next(s, steps[0]), steps[1..])
  }

  /** A decision names a committed tuple. */
  ghost predicate Committed(s: State, d: Seen) {
    d.install < |s.commits| && d.commit < |s.commits[d.install]| && s.commits[d.install][d.commit] == d.tuple
  }

  /** Commit k of an install carries the install's generation plus k. */
  ghost predicate Numbered(commits: seq<Tuple>) {
    commits != [] && forall k :: 0 <= k < |commits| ==> commits[k].gen == commits[0].gen + k
  }

  ghost predicate NoLater(a: Seen, b: Seen) {
    a.install < b.install || (a.install == b.install && a.commit <= b.commit)
  }

  function LastCommit(s: State): Tuple {
    if s.commits == [] || s.commits[|s.commits| - 1] == [] then Tuple(0, 0, 0, 0, 0)
    else var l := s.commits[|s.commits| - 1]; l[|l| - 1]
  }

  ghost predicate Current(s: State) {
    && (forall e :: 0 <= e < |s.commits| ==> Numbered(s.commits[e]))
    && (s.entry.Some? ==> IsBundle(s.entry.value) && s.commits != [] && Live(s.entry.value) == LastCommit(s))
  }

  ghost predicate WriterSound(s: State) {
    !s.writer.Free? ==>
      && s.entry.Some? && IsBundle(s.writer.w.step1) && IsBundle(s.writer.w.step2)
      && Live(s.writer.w.step1) == LastCommit(s)
      && Live(s.writer.w.step2) == s.writer.next && s.writer.next.gen == LastCommit(s).gen + 1
  }

  ghost predicate LogSound(s: State) {
    && (forall i :: 0 <= i < |s.seen| ==> Committed(s, s.seen[i]))
    && (forall i, j :: 0 <= i < j < |s.seen| ==> NoLater(s.seen[i], s.seen[j]))
  }

  ghost predicate Inv(s: State) {
    Current(s) && WriterSound(s) && LogSound(s)
  }

  lemma InstallKeepsCurrent(s: State, t: Tuple)
    requires Current(s) && WriterSound(s) && Enabled(s, Install(t))
    ensures Current(Next(s, Install(t))) && WriterSound(Next(s, Install(t)))
  {
    LiveOfStaged(0, t, t, 0);
  }

  lemma WritesSound(raw: seq<byte>, c: Change)
    requires IsBundle(raw) && Modify(raw, c).Some?
    ensures var w, t := Modify(raw, c).value, Apply(Live(raw), c);
            && t.Some? && t.value.gen == Live(raw).gen + 1
            && IsBundle(w.step1) && IsBundle(w.step2) && Live(w.step1) == Live(raw) && Live(w.step2) == t.value
  {
    ModifyIsRecordUpdate(raw, c);
  }

  lemma BeginKeepsCurrent(s: State, c: Change)
    requires Current(s) && WriterSound(s) && Enabled(s, Begin(c))
    ensures Current(Next(s, Begin(c))) && WriterSound(Next(s, Begin(c)))
  {
    var s' := Next(s, Begin(c));
    if s' != s {
      var raw := s.entry.value;
      WritesSound(raw, c);
      assert s'.entry == s.entry && s'.commits == s.commits && LastCommit(s') == LastCommit(s) == Live(raw);
    }
  }

  lemma CommitKeepsCurrent(s: State)
    requires Current(s) && WriterSound(s) && Enabled(s, Write2)
    ensures Current(Next(s, Write2)) && WriterSound(Next(s, Write2))
  {
    var s', last := Next(s, Write2), |s.commits| - 1;
    assert Numbered(s.commits[last]);
    assert LastCommit(s') == s.writer.next;
    forall e | 0 <= e < |s'.commits|
      ensures Numbered(s'.commits[e])
    {
      assert e < last ==> Numbered(s.commits[e]);
    }
  }

  lemma StepKeepsCurrent(s: State, step: Step)
    requires Current(s) && WriterSound(s) && Enabled(s, step)
    ensures Current(Next(s, step)) && WriterSound(Next(s, step))
  {
    match step
    case Install(t) => InstallKeepsCurrent(s, t);
    case Begin(c) => BeginKeepsCurrent(s, c);
    case Write2 => CommitKeepsCurrent(s);
    case _ =>
  }

  lemma StepKeepsLog(s: State, step: Step)
    requires Inv(s) && Enabled(s, step)
    ensures LogSound(Next(s, step))
  {
    var s' := Next(s, step);
    forall i | 0 <= i < |s.seen|
      ensures Committed(s', s.seen[i])
    {
      assert Committed(s, s.seen[i]);
    }
    if step.Packet? && s.entry.Some? {
      forall i | 0 <= i < |s.seen|
        ensures NoLater(s.seen[i], s'.seen[|s.seen|])
      {
        assert Committed(s, s.seen[i]);
      }
    }
  }

  /** The model blocks nobody: packets can always look up, and a modification in progress can always go on. */
  lemma NeverBlocked(s: State)
    requires Inv(s)
    ensures Enabled(s, Packet)
    ensures s.writer.Prepared? ==> Enabled(s, Write1)
    ensures s.writer.Staging? ==> Enabled(s, Write2)
    ensures s.writer.Free? ==> forall c :: Enabled(s, Begin(c))
  {
    if s.entry.Some? {
      assert Numbered(s.commits[|s.commits| - 1]);
    }
  }

  lemma {:induction false} RunKeepsInv(s: State, steps: seq<Step>)
    requires Inv(s) && Legal(s, steps)
    ensures Inv(Exec(s, steps))
    decreases |steps|
  {
    if steps != [] {
      StepKeepsCurrent(s, steps[0]);
      StepKeepsLog(s, steps[0]);
      RunKeepsInv(Next(s, steps[0]), steps[1..]);
    }
  }

  /**
   * Transactional consistency, over every interleaving of installs, removals, modifications and packets: each
   * decision is a tuple committed as one unit, between reinstalls a generation names exactly one tuple, and
   * successive lookups never see an older commit.
   */
  lemma DecisionsAreCommitted(steps: seq<Step>)
    requires Legal(INIT, steps)
    ensures var s := Exec(INIT, steps);
            forall i :: 0 <= i < |s.seen| ==> Committed(s, s.seen[i])
    ensures var s := Exec(INIT, steps);
            forall i, j | 0 <= i < |s.seen| && 0 <= j < |s.seen| && s.seen[i].install == s.seen[j].install
                          && s.seen[i].tuple.gen == s.seen[j].tuple.gen
            :: s.seen[i].tuple == s.seen[j].tuple
    ensures var s := Exec(INIT, steps);
            forall i, j | 0 <= i < j < |s.seen| && s.seen[i].install == s.seen[j].install
            :: s.seen[i].tuple.gen <= s.seen[j].tuple.gen
  {
    RunKeepsInv(INIT, steps);
    var s := Exec(INIT, steps);
    forall i | 0 <= i < |s.seen|
      ensures s.seen[i].tuple.gen == s.commits[s.seen[i].install][0].gen + s.seen[i].commit
    {
      assert Committed(s, s.seen[i]);
      assert Numbered(s.commits[s.seen[i].install]);
    }
    forall i, j | 0 <= i < j < |s.seen| && s.seen[i].install == s.seen[j].install
      ensures s.seen[i].tuple.gen <= s.seen[j].tuple.gen
    {
      assert NoLater(s.seen[i], s.seen[j]);
    }
  }
}
