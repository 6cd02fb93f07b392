/** Without the condition of WordReadersSeeCommits a reader can act on a tuple nobody committed. */
module BundleTearing {
  import opened Words
  import opened TcBundle
  import opened BundleWordReaders
  import opened BundleWordSafety

  lemma {:induction false} Chain(s: State, a: seq<Step>, b: seq<Step>)
    requires Legal(s, a) && Legal(Exec(s, a), b)
    ensures Legal(s, a + b) && Exec(s, a + b) == Exec(Exec(s, a), b)
    decreases |a|
  {
    if a == [] {
      assert a + b == b;
    } else {
      var s' := Next(s, a[0]);
      assert (a + b)[0] == a[0] && (a + b)[1..] == a[1..] + b;
      assert Exec(s, a) == Exec(s', a[1..]);
      Chain(s', a[1..], b);
    }
  }

  /** The first words of a slot, as a reader holds them. */
  function InHand(ws: seq<u32>): map<nat, u32> {
    map k: nat | k < |ws| :: ws[k]
  }

  /** Reader r sits in the middle of a read with these words in hand. */
  ghost predicate Holds(s: State, r: nat, active: nat, got: seq<u32>) {
    r < |s.readers| && s.readers[r].Loading? && s.readers[r].active == active && s.readers[r].got == InHand(got)
  }

  /** The copy so far has written the words below `pos`. */
  function Below(pos: nat): (done: set<nat>)
    ensures forall k: nat :: k in done <==> k < pos
  {
    if pos == 0 then {} else Below(pos - 1) + {pos - 1}
  }

  lemma BelowStep(pos: nat)
    requires pos < 14
    ensures Below(pos) + {pos} == Below(pos + 1) && (AllOf(Below(pos + 1)) <==> pos == 13)
  {
    assert pos < 13 ==> 13 !in Below(pos + 1);
  }

  lemma {:induction false} FinishStage(s: State, pos: nat, r: nat, active: nat, got: seq<u32>)
    returns (steps: seq<Step>)
    requires Inv(s) && s.writer.First? && s.writer.done == Below(pos) && pos < 14 && Holds(s, r, active, got)
    ensures Legal(s, steps)
    ensures var e := Exec(s, steps);
            && Inv(e) && Holds(e, r, active, got) && e.commits == s.commits
            && e.mem == s.writer.goal && e.writer == Second(s.writer.goal2, Below(0), s.writer.next)
    decreases 14 - pos
  {
    StepKeepsInv(s, Put(pos));
    BelowStep(pos);
    var s' := Next(s, Put(pos));
    if pos == 13 {
      steps := [Put(pos)];
      assert steps[1..] == [] && Legal(s', []);
      assert s'.mem == s.writer.goal;
      assert Below(0) == {};
    } else {
      var rest := FinishStage(s', pos + 1, r, active, got);
      steps := [Put(pos)] + rest;
      assert steps[1..] == rest;
    }
  }

  lemma {:induction false} FinishCommit(s: State, pos: nat, r: nat, active: nat, got: seq<u32>)
    returns (steps: seq<Step>)
    requires Inv(s) && s.writer.Second? && s.writer.done == Below(pos) && pos < 14 && Holds(s, r, active, got)
    ensures Legal(s, steps)
    ensures var e := Exec(s, steps);
            && Inv(e) && Holds(e, r, active, got) && e.writer.Free?
            && e.mem == s.writer.goal2
            && e.commits == if pos == 0 then s.commits + [s.writer.next] else s.commits
    decreases 14 - pos
  {
    StepKeepsInv(s, Put(pos));
    BelowStep(pos);
    var s' := Next(s, Put(pos));
    if pos == 13 {
      steps := [Put(pos)];
      assert steps[1..] == [] && Legal(s', []);
      assert s'.mem == s.writer.goal2;
    } else {
      var rest := FinishCommit(s', pos + 1, r, active, got);
      steps := [Put(pos)] + rest;
      assert steps[1..] == rest;
    }
  }

  lemma OneMoreInHand(got: seq<u32>, w: u32)
    ensures InHand(got)[|got| := w] == InHand(got + [w])
  {
  }

  lemma LoadNext(s: State, r: nat, active: nat, got: seq<u32>)
    requires Inv(s) && Holds(s, r, active, got) && |got| < 6 && active < 2
    ensures Enabled(s, Load(r, |got|))
    ensures var s' := Next(s, Load(r, |got|));
            && Inv(s') && Holds(s', r, active, got + [Slot(s.mem, active)[|got|]])
            && s'.mem == s.mem && s'.commits == s.commits && s'.writer == s.writer
  {
    var w := Slot(s.mem, active)[|got|];
    assert w == s.mem[2 + 6 * active + |got|];
    OneMoreInHand(got, w);
    StepKeepsInv(s, Load(r, |got|));
  }

  lemma {:induction false} FinishRead(s: State, r: nat, active: nat, got: seq<u32>) returns (steps: seq<Step>)
    requires Inv(s) && Holds(s, r, active, got) && |got| <= 6 && active < 2
    ensures Legal(s, steps)
    ensures var e := Exec(s, steps);
            Holds(e, r, active, got + Slot(s.mem, active)[|got|..]) && e.commits == s.commits
    decreases 6 - |got|
  {
    if |got| == 6 {
      steps := [];
      assert got + Slot(s.mem, active)[6..] == got;
    } else {
      var step := Load(r, |got|);
      LoadNext(s, r, active, got);
      var w := Slot(s.mem, active)[|got|];
      var rest := FinishRead(Next(s, step), r, active, got + [w]);
      steps := [step] + rest;
      assert steps[1..] == rest;
      assert got + [w] + Slot(s.mem, active)[|got| + 1..] == got + Slot(s.mem, active)[|got|..];
    }
  }

  lemma StartModify(s: State, c: Change, r: nat, active: nat, got: seq<u32>)
    requires Inv(s) && s.writer.Free? && Holds(s, r, active, got)
    requires Apply(s.commits[|s.commits| - 1], c).Some?
    ensures Enabled(s, Begin(c))
    ensures var s' := Next(s, Begin(c));
            && Inv(s') && Holds(s', r, active, got) && s'.commits == s.commits && s'.mem == s.mem
            && s'.writer.First? && s'.writer.done == Below(0)
            && s'.writer.next == Apply(s.commits[|s.commits| - 1], c).value
  {
    StepKeepsInv(s, Begin(c));
    GoalsOfModify(s.mem, s.commits[|s.commits| - 1], c);
    ModifyIsRecordUpdate(Pack(s.mem), c);
    assert Below(0) == {};
  }

  ghost predicate Reaches(s: State, steps: seq<Step>, e: State) {
    Legal(s, steps) && Exec(s, steps) == e
  }

  lemma Prepend(s: State, step: Step, rest: seq<Step>, e: State)
    requires Enabled(s, step) && Reaches(Next(s, step), rest, e)
    ensures Reaches(s, [step] + rest, e)
  {
    assert ([step] + rest)[1..] == rest;
  }

  lemma Append(s: State, a: seq<Step>, t: State, b: seq<Step>, e: State)
    requires Reaches(s, a, t) && Reaches(t, b, e)
    ensures Reaches(s, a + b, e)
  {
    Chain(s, a, b);
  }

  /** The reader loads the flag, then the first word of slot 0. */
  lemma ReadFlagAndFar(t: Tuple) returns (steps: seq<Step>, s: State)
    ensures Reaches(Init(t, 1), steps, s)
    ensures Inv(s) && Holds(s, 0, 0, [t.far]) && s.writer.Free? && s.commits == [t] && s.mem[0] == 0
  {
    var s0 := Init(t, 1);
    InitInv(t, 1);
    StepKeepsInv(s0, Flag(0));
    var s1 := Next(s0, Flag(0));
    assert map[] == InHand([]);
    LoadNext(s1, 0, 0, []);
    assert [] + [t.far] == [t.far];
    s := Next(s1, Load(0, 0));
    Prepend(s1, Load(0, 0), [], s);
    Prepend(s0, Flag(0), [Load(0, 0)] + [], s);
    steps := [Flag(0)] + ([Load(0, 0)] + []);
  }

  /** Step 1 of a modification runs while the reader waits. */
  lemma Stages(s: State, c: Change, got: seq<u32>) returns (steps: seq<Step>, e: State)
    requires Inv(s) && s.writer.Free? && Holds(s, 0, 0, got)
    requires Apply(s.commits[|s.commits| - 1], c).Some?
    ensures Reaches(s, steps, e)
    ensures Inv(e) && Holds(e, 0, 0, got) && e.commits == s.commits && e.mem[0] == s.mem[0]
    ensures e.writer.Second? && e.writer.done == Below(0)
    ensures e.writer.next == Apply(s.commits[|s.commits| - 1], c).value && e.writer.goal2[0] == 1 - s.mem[0]
    ensures Slot(e.mem, 1 - s.mem[0]) == SlotWords(e.writer.next)
  {
    StartModify(s, c, 0, 0, got);
    var s1 := Next(s, Begin(c));
    StagedSlot(s1);
    steps := FinishStage(s1, 0, 0, 0, got);
    e := Exec(s1, steps);
    Prepend(s, Begin(c), steps, e);
    steps := [Begin(c)] + steps;
  }

  /** A whole modification runs while the reader waits. */
  lemma Modifies(s: State, c: Change, got: seq<u32>) returns (steps: seq<Step>, e: State)
    requires Inv(s) && s.writer.Free? && Holds(s, 0, 0, got)
    requires Apply(s.commits[|s.commits| - 1], c).Some?
    ensures Reaches(s, steps, e)
    ensures Inv(e) && Holds(e, 0, 0, got) && e.writer.Free? && e.mem[0] == 1 - s.mem[0]
    ensures e.commits == s.commits + [Apply(s.commits[|s.commits| - 1], c).value]
  {
    var stage, s1 := Stages(s, c, got);
    var commit := FinishCommit(s1, 0, 0, 0, got);
    e := Exec(s1, commit);
    Append(s, stage, s1, commit, e);
    steps := stage + commit;
  }

  /** The first far id with the third tuple's other words is none of the three tuples. */
  lemma HybridIsNew(t: Tuple, t1: Tuple, t2: Tuple)
    requires t1.gen == t.gen + 1 && t2.gen == t.gen + 2 && t2.far != t.far
    ensures var torn := InHand([t.far] + SlotWords(t2)[1..]);
            !Agrees(torn, t) && !Agrees(torn, t1) && !Agrees(torn, t2)
  {
    var torn := InHand([t.far] + SlotWords(t2)[1..]);
    assert 0 in torn && torn[0] == t.far && 4 in torn && torn[4] == t2.gen;
    assert SlotWords(t)[4] == t.gen && SlotWords(t1)[4] == t1.gen && SlotWords(t2)[0] == t2.far;
  }

  lemma {:induction false} KeepsReaders(s: State, steps: seq<Step>)
    requires Legal(s, steps)
    ensures |Exec(s, steps).readers| == |s.readers|
    decreases |steps|
  {
    if steps != [] {
      KeepsReaders(Next(s, steps[0]), steps[1..]);
    }
  }

  /** Two modifications under a reader that has loaded one word, then the rest of its read. */
  lemma Overtakes(t: Tuple, c1: Change, c2: Change) returns (steps: seq<Step>, e: State)
    requires Apply(t, c1).Some? && Apply(Apply(t, c1).value, c2).Some?
    ensures Reaches(Init(t, 1), steps, e)
    ensures e.commits == [t, Apply(t, c1).value]
    ensures Holds(e, 0, 0, [t.far] + SlotWords(Apply(Apply(t, c1).value, c2).value)[1..])
  {
    var opening, s1 := ReadFlagAndFar(t);
    var first, s2 := Modifies(s1, c1, [t.far]);
    var second, s3 := Stages(s2, c2, [t.far]);
    var loads := FinishRead(s3, 0, 0, [t.far]);
    e := Exec(s3, loads);
    Append(s2, second, s3, loads, e);
    Append(s1, first, s2, second + loads, e);
    Append(Init(t, 1), opening, s1, first + (second + loads), e);
    steps := opening + (first + (second + loads));
  }

  /**
   * A reader overtaken by two modifications can act on a tuple nobody committed: the far id of the first tuple
   * with the remaining fields of the third.
   */
  lemma OvertakenReaderTears(t: Tuple, c1: Change, c2: Change) returns (steps: seq<Step>)
    requires Apply(t, c1).Some? && Apply(Apply(t, c1).value, c2).Some?
    requires Apply(Apply(t, c1).value, c2).value.far != t.far
    ensures Legal(Init(t, 1), steps)
    ensures var s, t2 := Exec(Init(t, 1), steps), Apply(Apply(t, c1).value, c2).value;
            && s.commits == [t, Apply(t, c1).value] && |s.readers| == 1 && s.readers[0].Loading?
            && s.readers[0].got == InHand([t.far] + SlotWords(t2)[1..])
            && (forall k :: 0 <= k < |s.commits| ==> !Agrees(s.readers[0].got, s.commits[k]))
            && !Agrees(s.readers[0].got, t2)
  {
    var e;
    steps, e := Overtakes(t, c1, c2);
    KeepsReaders(Init(t, 1), steps);
    HybridIsNew(t, Apply(t, c1).value, Apply(Apply(t, c1).value, c2).value);
  }
}
