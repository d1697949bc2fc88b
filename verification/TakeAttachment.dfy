/** Attaching recorded Takes to a Project that people and other reconcilers edit meanwhile.
    The store compares and sets the revision, and keeps every committed change group as a
    receipt. */
module TakeAttachment {
  import opened Results

  type Id = nat

  /** Runs compare as their (created_at, rowid) pairs do. */
  type Run = nat

  type Fingerprint = nat

  datatype Take = Take(id: Id, fingerprint: Fingerprint)

  datatype Clip = Clip(intent: Option<Fingerprint>, take: Option<Take>, content: nat)

  /** An item of a job: the immutable request the recorder executed. */
  datatype Item = Item(clip: Option<Id>, spec: Fingerprint)

  /** usable: the file is there and the duration and the resulting clip are valid. */
  datatype Output = Output(id: Id, clip: Option<Id>, usable: bool)

  datatype Job = Job(run: Run, items: seq<Item>, outputs: seq<Output>)

  datatype Author = Human | System(run: Run)

  /** One committed patch; attached are the clips it replaced by ones with a Take. */
  datatype Group = Group(author: Author, attached: set<Id>)

  // One pass over the outputs of a job.

  function RequestFor(items: seq<Item>, clip: Id): (r: Option<Item>)
    ensures r.Some? ==> r.value in items && r.value.clip == Some(clip)
    ensures r.None? ==> forall item <- items :: item.clip != Some(clip)
  {
    if items == [] then None
    else if items[0].clip == Some(clip) then Some(items[0])
    else RequestFor(items[1..], clip)
  }

  /** The output is a new Take for what its clip now asks for, and no receipt speaks against it. */
  predicate Eligible(job: Job, o: Output, clips: map<Id, Clip>, receipts: set<Id>) {
    && o.clip.Some? && o.clip.value !in receipts && o.clip.value in clips
    && var clip := clips[o.clip.value];
       && !(clip.take.Some? && clip.take.value.id == o.id)
       && RequestFor(job.items, o.clip.value).Some?
       && clip.intent == Some(RequestFor(job.items, o.clip.value).value.spec)
  }

  function WithTake(clip: Clip, take: Id): Clip
    requires clip.intent.Some?
  {
    clip.(take := Some(Take(take, clip.intent.value)))
  }

  /** None when an eligible output is not usable, which fails the whole pass. */
  function Collect(job: Job, outputs: seq<Output>, clips: map<Id, Clip>, receipts: set<Id>, found: map<Id, Clip>)
    : Option<map<Id, Clip>>
    decreases |outputs|
  {
    if outputs == [] then Some(found)
    else
      var o := outputs[0];
      if !Eligible(job, o, clips, receipts) then Collect(job, outputs[1..], clips, receipts, found)
      else if !o.usable then None
      else Collect(job, outputs[1..], clips, receipts, found[o.clip.value := WithTake(clips[o.clip.value], o.id)])
  }

  /** The loop of reconcile_project_recording, early continues and all. */
  method CollectReplacements(job: Job, clips: map<Id, Clip>, receipts: set<Id>) returns (r: Option<map<Id, Clip>>)
    ensures r == Collect(job, job.outputs, clips, receipts, map[])
  {
    var replacements: map<Id, Clip> := map[];
    for i := 0 to |job.outputs|
      invariant Collect(job, job.outputs, clips, receipts, map[])
             == Collect(job, job.outputs[i..], clips, receipts, replacements)
    {
      var output := job.outputs[i];
      assert job.outputs[i..][0] == output && job.outputs[i..][1..] == job.outputs[i + 1..];
      if output.clip.None? { continue; }
      var clipId := output.clip.value;
      if clipId in receipts { continue; }
      if clipId !in clips { continue; }
      var clip := clips[clipId];
      if clip.take.Some? && clip.take.value.id == output.id { continue; }
      var request := RequestFor(job.items, clipId);
      if request.None? { continue; }
      if clip.intent.None? { continue; }
      if request.value.spec != clip.intent.value { continue; }
      if !output.usable { return None; }
      replacements := replacements[clipId := WithTake(clip, output.id)];
    }
    return Some(replacements);
  }

  /** outputs[i] is the last eligible output for its clip. */
  predicate Decisive(job: Job, outputs: seq<Output>, i: nat, clips: map<Id, Clip>, receipts: set<Id>)
    requires i < |outputs|
  {
    && Eligible(job, outputs[i], clips, receipts)
    && forall k :: i < k < |outputs| && outputs[k].clip == outputs[i].clip ==> !Eligible(job, outputs[k], clips, receipts)
  }

  ghost predicate Explained(job: Job, outputs: seq<Output>, clips: map<Id, Clip>, receipts: set<Id>,
                            found: map<Id, Clip>, c: Id, clip: Clip)
  {
    || (exists i :: 0 <= i < |outputs| && Decisive(job, outputs, i, clips, receipts) && outputs[i].clip == Some(c)
                    && clip == WithTake(clips[c], outputs[i].id))
    || (c in found && clip == found[c]
        && forall i :: 0 <= i < |outputs| && outputs[i].clip == Some(c) ==> !Eligible(job, outputs[i], clips, receipts))
  }

  lemma {:induction false} CollectIsExplained(job: Job, outputs: seq<Output>, clips: map<Id, Clip>, receipts: set<Id>,
                                              found: map<Id, Clip>)
    requires Collect(job, outputs, clips, receipts, found).Some?
    ensures var r := Collect(job, outputs, clips, receipts, found).value;
            && (forall c <- r :: Explained(job, outputs, clips, receipts, found, c, r[c]))
            && (forall o <- outputs :: Eligible(job, o, clips, receipts) ==> o.usable && o.clip.value in r)
            && found.Keys <= r.Keys
    decreases |outputs|
  {
    if outputs != [] {
      var o, rest := outputs[0], outputs[1..];
      var next := if Eligible(job, o, clips, receipts)
        then found[o.clip.value := WithTake(clips[o.clip.value], o.id)] else found;
      CollectIsExplained(job, rest, clips, receipts, next);
      var r := Collect(job, outputs, clips, receipts, found).value;
      forall c | c in r
        ensures Explained(job, outputs, clips, receipts, found, c, r[c])
      {
        assert Explained(job, rest, clips, receipts, next, c, r[c]);
        if i :| 0 <= i < |rest| && Decisive(job, rest, i, clips, receipts) && rest[i].clip == Some(c)
                && r[c] == WithTake(clips[c], rest[i].id) {
          assert outputs[i + 1] == rest[i];
          assert Decisive(job, outputs, i + 1, clips, receipts);
        } else if o.clip == Some(c) && Eligible(job, o, clips, receipts) {
          assert forall k :: 0 < k < |outputs| ==> outputs[k] == rest[k - 1];
          assert Decisive(job, outputs, 0, clips, receipts);
        } else {
          assert forall k :: 0 < k < |outputs| ==> outputs[k] == rest[k - 1];
        }
      }
    }
  }

  /** A pass replaces exactly the clips that have an eligible output, each by itself with the
      last such output as its Take. */
  lemma {:induction false} PassIsExact(job: Job, clips: map<Id, Clip>, receipts: set<Id>, c: Id)
    requires Collect(job, job.outputs, clips, receipts, map[]).Some?
    ensures var r := Collect(job, job.outputs, clips, receipts, map[]).value;
            && (c in r <==> exists o :: o in job.outputs && o.clip == Some(c) && Eligible(job, o, clips, receipts))
            && (c in r ==> exists i :: 0 <= i < |job.outputs| && Decisive(job, job.outputs, i, clips, receipts)
                                       && job.outputs[i].clip == Some(c) && job.outputs[i].usable && r[c] == WithTake(clips[c], job.outputs[i].id))
  {
    CollectIsExplained(job, job.outputs, clips, receipts, map[]);
    var r := Collect(job, job.outputs, clips, receipts, map[]).value;
    if c in r {
      assert Explained(job, job.outputs, clips, receipts, map[], c, r[c]);
    }
  }

  // The store and the passes in flight.

  /** How far a pass has got: the job is read first, then the Head, then the receipts. */
  datatype Pass =
    | NeedsHead(job: Job)
    | NeedsReceipts(job: Job, revision: nat, clips: map<Id, Clip>)
    | Ready(job: Job, revision: nat, clips: map<Id, Clip>, receipts: set<Id>)

  datatype State = State(revision: nat, clips: map<Id, Clip>, groups: seq<Group>, passes: map<nat, Pass>)

  /** Clips attached by this run or a later one, in any committed group. */
  function Receipts(groups: seq<Group>, run: Run): (r: set<Id>)
    ensures forall c :: c in r <==>
              exists i :: 0 <= i < |groups| && groups[i].author.System? && groups[i].author.run >= run && c in groups[i].attached
  {
    if groups == [] then {}
    else
      var last := groups[|groups| - 1];
      assert forall i :: 0 <= i < |groups| - 1 ==> groups[..|groups| - 1][i] == groups[i];
      Receipts(groups[..|groups| - 1], run)
      + (if last.author.System? && last.author.run >= run then last.attached else {})
  }

  datatype Event =
    | Begin(pass: nat, job: Job)
    | ReadHead(pass: nat)
    | ReadReceipts(pass: nat)
    | Submit(pass: nat, accepted: bool)         // accepted: the store has no other objection
    | Edit(clips: map<Id, Clip>, attached: set<Id>)  // anybody else's patch, an undo included
    | GiveUp(pass: nat)

  /** The base revision is current, the patch is not empty, and nothing else is wrong with it. */
  predicate Commits(s: State, pass: Pass, accepted: bool)
  {
    && pass.Ready? && accepted && pass.revision == s.revision
    && Collect(pass.job, pass.job.outputs, pass.clips, pass.receipts, map[]).Some?
    && Collect(pass.job, pass.job.outputs, pass.clips, pass.receipts, map[]).value != map[]
  }

  function Committed(s: State, pass: Pass): State
    requires Commits(s, pass, true)
  {
    var replacements := Collect(pass.job, pass.job.outputs, pass.clips, pass.receipts, map[]).value;
    s.(revision := s.revision + 1,
       clips := map c <- s.clips :: if c in replacements then replacements[c] else s.clips[c],
       groups := s.groups + [Group(System(pass.job.run), replacements.Keys)])
  }

  function Step(s: State, e: Event): State {
    match e
    case Begin(p, job) => if p in s.passes then s else s.(passes := s.passes[p := NeedsHead(job)])
    case ReadHead(p) =>
      if p in s.passes && s.passes[p].NeedsHead? then
        s.(passes := s.passes[p := NeedsReceipts(s.passes[p].job, s.revision, s.clips)])
      else s
    case ReadReceipts(p) =>
      if p in s.passes && s.passes[p].NeedsReceipts? then
        var q := s.passes[p];
        s.(passes := s.passes[p := Ready(q.job, q.revision, q.clips, Receipts(s.groups, q.job.run))])
      else s
    case Submit(p, accepted) =>
      if p in s.passes && s.passes[p].Ready? then
        var t := s.(passes := s.passes - {p});
        if Commits(s, s.passes[p], accepted) then Committed(t, s.passes[p]) else t
      else s
    case Edit(clips, attached) =>
      s.(revision := s.revision + 1, clips := clips, groups := s.groups + [Group(Human, attached)])
    case GiveUp(p) => s.(passes := s.passes - {p})
  }

  function Exec(s: State, schedule: seq<Event>): State
    decreases |schedule|
  {
    if schedule == [] then s else Exec(Step(s, schedule[0]), schedule[1..])
  }

  // What every run keeps.

  /** A pass never knows more than the store, and a Head that is still current comes with
      receipts for everything committed. */
  ghost predicate Informed(s: State, pass: Pass) {
    !pass.NeedsHead? ==>
      && pass.revision <= s.revision
      && (pass.revision == s.revision ==> pass.clips == s.clips)
      && (pass.Ready? && pass.revision == s.revision ==> Receipts(s.groups, pass.job.run) <= pass.receipts)
  }

  predicate BothAttach(a: Group, b: Group, c: Id) {
    a.author.System? && b.author.System? && c in a.attached && c in b.attached
  }

  /** Two attachments to one clip by recording runs are in the order of the runs, strictly. */
  ghost predicate Ascending(groups: seq<Group>) {
    forall i, j, c :: 0 <= i < j < |groups| && BothAttach(groups[i], groups[j], c) ==>
      groups[i].author.run < groups[j].author.run
  }

  ghost predicate Invariant(s: State) {
    && (forall p <- s.passes :: Informed(s, s.passes[p]))
    && Ascending(s.groups)
  }

  lemma {:induction false} CommitKeepsAscending(s: State, pass: Pass)
    requires Ascending(s.groups) && Informed(s, pass) && Commits(s, pass, true)
    ensures Ascending(Committed(s, pass).groups)
  {
    var replacements := Collect(pass.job, pass.job.outputs, pass.clips, pass.receipts, map[]).value;
    var t := Committed(s, pass);
    forall i, j, c | 0 <= i < j < |t.groups| && BothAttach(t.groups[i], t.groups[j], c)
      ensures t.groups[i].author.run < t.groups[j].author.run
    {
      if j == |s.groups| {
        PassIsExact(pass.job, pass.clips, pass.receipts, c);
        assert c !in pass.receipts;
        assert c !in Receipts(s.groups, pass.job.run);
        assert t.groups[i] == s.groups[i];
      }
    }
  }

  lemma {:induction false} StepKeepsInvariant(s: State, e: Event)
    requires Invariant(s)
    ensures Invariant(Step(s, e))
  {
    hide Collect, Commits;
    if e.Submit? && e.pass in s.passes && s.passes[e.pass].Ready? && Commits(s, s.passes[e.pass], e.accepted) {
      CommitMeans(s, s.passes[e.pass], e.accepted);
      var t := s.(passes := s.passes - {e.pass});
      CommitKeepsAscending(t, s.passes[e.pass]);
    }
  }

  lemma {:induction false} CommitMeans(s: State, pass: Pass, accepted: bool)
    requires Commits(s, pass, accepted)
    ensures forall passes :: Commits(s.(passes := passes), pass, true)
  {
  }

  lemma {:induction false} RunsKeepInvariant(s: State, schedule: seq<Event>)
    requires Invariant(s)
    ensures Invariant(Exec(s, schedule))
    decreases |schedule|
  {
    if schedule != [] {
      StepKeepsInvariant(s, schedule[0]);
      RunsKeepInvariant(Step(s, schedule[0]), schedule[1..]);
    }
  }

  /** However edits, undos and reconcilers interleave, one run attaches to one clip at most once,
      and never after a later run has. */
  lemma {:induction false} AttachesAtMostOnce(revision: nat, clips: map<Id, Clip>, schedule: seq<Event>, i: nat, j: nat, c: Id)
    requires var groups := Exec(State(revision, clips, [], map[]), schedule).groups;
             i < |groups| && j < |groups| && BothAttach(groups[i], groups[j], c)
    ensures var groups := Exec(State(revision, clips, [], map[]), schedule).groups;
            && (groups[i].author.run == groups[j].author.run ==> i == j)
            && (groups[i].author.run < groups[j].author.run ==> i < j)
  {
    RunsKeepInvariant(State(revision, clips, [], map[]), schedule);
    var groups := Exec(State(revision, clips, [], map[]), schedule).groups;
    assert BothAttach(groups[j], groups[i], c);
  }

  /** In a reachable state, a submitted pass that commits bumps the revision by one and leaves
      every clip alone except those it attaches to; and of those, each keeps its Capture Intent,
      which is what the job's own request asked for, and now holds an output of the job. A pass
      that does not commit changes neither the Project nor its groups. */
  lemma {:induction false} AttachesOnlyWhatWasAskedFor(s: State, p: nat, accepted: bool)
    requires Invariant(s) && p in s.passes && s.passes[p].Ready?
    ensures var t, job := Step(s, Submit(p, accepted)), s.passes[p].job;
            if !Commits(s, s.passes[p], accepted) then
              t.revision == s.revision && t.clips == s.clips && t.groups == s.groups
            else
              && t.revision == s.revision + 1 && t.clips.Keys == s.clips.Keys
              && |t.groups| == |s.groups| + 1 && t.groups[..|s.groups|] == s.groups
              && t.groups[|s.groups|].author == System(job.run) && t.groups[|s.groups|].attached != {}
              && forall c <- s.clips ::
                   if c !in t.groups[|s.groups|].attached then t.clips[c] == s.clips[c]
                   else AttachedTo(job, s.clips[c], t.clips[c], c)
  {
    var pass := s.passes[p];
    var job := pass.job;
    if Commits(s, pass, accepted) {
      var t := Step(s, Submit(p, accepted));
      var r := Collect(job, job.outputs, pass.clips, pass.receipts, map[]).value;
      assert pass.clips == s.clips;
      forall c | c in s.clips && c in r
        ensures AttachedTo(job, s.clips[c], t.clips[c], c)
      {
        PassIsExact(job, pass.clips, pass.receipts, c);
      }
    }
  }

  // What a pass attaches, told from the Project, the job and the receipts alone.

  /** The first item of the job for the clip asks for spec. */
  predicate Asks(items: seq<Item>, c: Id, spec: Fingerprint) {
    exists i :: 0 <= i < |items| && items[i].clip == Some(c) && items[i].spec == spec
                && forall k :: 0 <= k < i ==> items[k].clip != Some(c)
  }

  /** The clip still asks for what was recorded for it, and no receipt speaks against it. */
  predicate Due(job: Job, clips: map<Id, Clip>, receipts: set<Id>, c: Id) {
    c in clips && c !in receipts && clips[c].intent.Some? && Asks(job.items, c, clips[c].intent.value)
  }

  /** The output is for the clip and is not the Take that the clip holds already. */
  predicate Fresh(o: Output, clips: map<Id, Clip>, c: Id) {
    o.clip == Some(c) && c in clips && (clips[c].take.None? || clips[c].take.value.id != o.id)
  }

  predicate LastFresh(outputs: seq<Output>, i: int, clips: map<Id, Clip>, c: Id) {
    && 0 <= i < |outputs| && Fresh(outputs[i], clips, c)
    && forall k :: i < k < |outputs| ==> !Fresh(outputs[k], clips, c)
  }

  /** Every output that would be attached to a clip is usable. */
  predicate NothingFails(job: Job, clips: map<Id, Clip>, receipts: set<Id>) {
    forall o, c :: o in job.outputs && c in clips && Due(job, clips, receipts, c) && Fresh(o, clips, c) ==> o.usable
  }

  /** The clips that are due and have an output they do not hold yet. */
  predicate Awaits(job: Job, clips: map<Id, Clip>, receipts: set<Id>, c: Id) {
    Due(job, clips, receipts, c) && exists o :: o in job.outputs && Fresh(o, clips, c)
  }

  /** Exactly the clips that await an output have got one, the last, as a Take for what they ask for. */
  ghost predicate GotTheirTakes(job: Job, before: map<Id, Clip>, receipts: set<Id>, after: map<Id, Clip>, attached: set<Id>) {
    && after.Keys == before.Keys
    && (forall c :: c in attached <==> Awaits(job, before, receipts, c))
    && (forall c <- before :: c !in attached ==> after[c] == before[c])
    && forall c, i :: c in attached && LastFresh(job.outputs, i, before, c) ==>
         after[c] == Clip(before[c].intent, Some(Take(job.outputs[i].id, before[c].intent.value)), before[c].content)
  }

  lemma {:induction false} FirstRequest(items: seq<Item>, c: Id, spec: Fingerprint)
    ensures Asks(items, c, spec) <==> RequestFor(items, c).Some? && RequestFor(items, c).value.spec == spec
  {
    if items != [] && items[0].clip != Some(c) {
      var rest := items[1..];
      FirstRequest(rest, c, spec);
      if i :| 0 <= i < |rest| && rest[i].clip == Some(c) && rest[i].spec == spec
              && forall k :: 0 <= k < i ==> rest[k].clip != Some(c) {
        assert items[i + 1] == rest[i];
        assert forall k :: 0 < k < i + 1 ==> items[k] == rest[k - 1];
      }
      if i :| 0 <= i < |items| && items[i].clip == Some(c) && items[i].spec == spec
              && forall k :: 0 <= k < i ==> items[k].clip != Some(c) {
        assert rest[i - 1] == items[i];
        assert forall k :: 0 <= k < i - 1 ==> rest[k] == items[k + 1];
      }
    }
  }

  lemma EligibleMeans(job: Job, o: Output, clips: map<Id, Clip>, receipts: set<Id>)
    ensures Eligible(job, o, clips, receipts) <==>
            o.clip.Some? && Due(job, clips, receipts, o.clip.value) && Fresh(o, clips, o.clip.value)
  {
    if o.clip.Some? && o.clip.value in clips {
      var c := o.clip.value;
      if clips[c].intent.Some? {
        FirstRequest(job.items, c, clips[c].intent.value);
      }
    }
    hide RequestFor, Asks;
  }

  lemma {:induction false} CollectFailsIff(job: Job, outputs: seq<Output>, clips: map<Id, Clip>, receipts: set<Id>,
                                           found: map<Id, Clip>)
    ensures Collect(job, outputs, clips, receipts, found).None? <==>
            exists o :: o in outputs && Eligible(job, o, clips, receipts) && !o.usable
    decreases |outputs|
  {
    if outputs != [] {
      var o, rest := outputs[0], outputs[1..];
      assert outputs == [o] + rest;
      var next := if Eligible(job, o, clips, receipts) 
        then found[o.clip.value := WithTake(clips[o.clip.value], o.id)] else found;
      CollectFailsIff(job, rest, clips, receipts, next);
    }
  }

  /** What the loop over the outputs collects: nothing at all exactly if an output that is due is not
      usable, and otherwise the clips that await an output, each with its Take. */
  lemma {:induction false} PassMeans(job: Job, clips: map<Id, Clip>, receipts: set<Id>)
    ensures var r := Collect(job, job.outputs, clips, receipts, map[]);
            && (r.Some? <==> NothingFails(job, clips, receipts))
            && (r.Some? ==> r.value.Keys <= clips.Keys
                            && GotTheirTakes(job, clips, receipts, clips + r.value, r.value.Keys))
  {
    hide Collect, Due, RequestFor;
    CollectFailsIff(job, job.outputs, clips, receipts, map[]);
    forall o
      ensures Eligible(job, o, clips, receipts) <==>
              o.clip.Some? && Due(job, clips, receipts, o.clip.value) && Fresh(o, clips, o.clip.value)
    {
      EligibleMeans(job, o, clips, receipts);
    }
    hide Eligible;
    var r := Collect(job, job.outputs, clips, receipts, map[]);
    if r.Some? {
      forall c
        ensures c in r.value <==> Awaits(job, clips, receipts, c)
      {
        PassIsExact(job, clips, receipts, c);
      }
      DueIsThere(job, clips, receipts);
      forall c, i | c in r.value && LastFresh(job.outputs, i, clips, c)
        ensures r.value[c] == Clip(clips[c].intent, Some(Take(job.outputs[i].id, clips[c].intent.value)), clips[c].content)
      {
        PassIsExact(job, clips, receipts, c);
        var k :| 0 <= k < |job.outputs| && Decisive(job, job.outputs, k, clips, receipts)
                 && job.outputs[k].clip == Some(c) && job.outputs[k].usable
                 && r.value[c] == WithTake(clips[c], job.outputs[k].id);
        assert k == i;
      }
    }
  }

  lemma DueIsThere(job: Job, clips: map<Id, Clip>, receipts: set<Id>)
    ensures forall c :: Due(job, clips, receipts, c) ==> c in clips && clips[c].intent.Some?
  {
    hide Asks;
  }

  /** A pass that is submitted in a reachable state, while its revision is current and the store has no
      other objection, commits exactly if some clip awaits an output and no output that is due is
      unusable. It then is the next revision and the next receipt, and gives each of these clips its
      Take. Otherwise the Project stays as it is. */
  lemma {:induction false} DueTakesAreAttached(s: State, p: nat, accepted: bool)
    requires Invariant(s) && p in s.passes && s.passes[p].Ready?
    ensures var t, pass := Step(s, Submit(p, accepted)), s.passes[p];
            && t.passes == s.passes - {p}
            && if accepted && pass.revision == s.revision && NothingFails(pass.job, s.clips, pass.receipts)
                  && exists c :: Awaits(pass.job, s.clips, pass.receipts, c) then
                 && t.revision == s.revision + 1
                 && |t.groups| == |s.groups| + 1 && t.groups[..|s.groups|] == s.groups
                 && t.groups[|s.groups|].author == System(pass.job.run)
                 && GotTheirTakes(pass.job, s.clips, pass.receipts, t.clips, t.groups[|s.groups|].attached)
               else t.revision == s.revision && t.clips == s.clips && t.groups == s.groups
  {
    hide Collect, Awaits, NothingFails;
    var pass, t := s.passes[p], Step(s, Submit(p, accepted));
    if pass.revision == s.revision {
      assert Informed(s, pass) && pass.clips == s.clips;
      PassMeans(pass.job, s.clips, pass.receipts);
      var r := Collect(pass.job, pass.job.outputs, s.clips, pass.receipts, map[]);
      if r.Some? {
        assert forall c :: c in r.value <==> Awaits(pass.job, s.clips, pass.receipts, c);
        assert r.value != map[] <==> exists c :: c in r.value;
        if accepted && r.value != map[] {
          assert t.clips == s.clips + r.value;
        }
      }
    }
  }

  /** A pass that nothing comes between, from reading the job to submitting, knows the Project as it is
      and the receipts of its own run and all later ones. */
  lemma {:induction false} UndisturbedPass(s: State, p: nat, job: Job)
    requires p !in s.passes
    ensures var t := Step(Step(Step(s, Begin(p, job)), ReadHead(p)), ReadReceipts(p));
            && p in t.passes && t == s.(passes := s.passes[p := t.passes[p]])
            && t.passes[p].Ready? && t.passes[p].job == job && t.passes[p].revision == s.revision
            && t.passes[p].clips == s.clips
            && forall c :: c in t.passes[p].receipts <==>
                 exists i :: 0 <= i < |s.groups| && s.groups[i].author.System? && s.groups[i].author.run >= job.run
                             && c in s.groups[i].attached
  {
    hide Receipts;
    var t := Step(Step(Step(s, Begin(p, job)), ReadHead(p)), ReadReceipts(p));
    assert t.passes[p] == Ready(job, s.revision, s.clips, Receipts(s.groups, job.run));
  }

  ghost predicate AttachedTo(job: Job, before: Clip, after: Clip, c: Id) {
    && RequestFor(job.items, c).Some? && before.intent == Some(RequestFor(job.items, c).value.spec)
    && after.intent == before.intent && after.content == before.content
    && after.take.Some? && after.take.value.fingerprint == before.intent.value
    && (before.take.Some? ==> before.take.value.id != after.take.value.id)
    && exists o :: o in job.outputs && o.clip == Some(c) && o.id == after.take.value.id && o.usable
  }

  /** The revision counts the committed groups, one for one. */
  lemma {:induction false} RevisionCountsGroups(s: State, schedule: seq<Event>)
    ensures Exec(s, schedule).revision - s.revision == |Exec(s, schedule).groups| - |s.groups|
    decreases |schedule|
  {
    hide Collect, Commits;
    if schedule != [] {
      RevisionCountsGroups(Step(s, schedule[0]), schedule[1..]);
    }
  }

  // Why the Head is read before the receipts.

  lemma {:induction false} ExecCons(s: State, e: Event, rest: seq<Event>)
    ensures Exec(s, [e] + rest) == Exec(Step(s, e), rest)
  {
    assert ([e] + rest)[0] == e && ([e] + rest)[1..] == rest;
  }

  lemma {:induction false} ExecFive(s: State, e0: Event, e1: Event, e2: Event, e3: Event, e4: Event)
    ensures Exec(s, [e0, e1, e2, e3, e4]) == Step(Step(Step(Step(Step(s, e0), e1), e2), e3), e4)
  {
    hide Step;
    var s1, rest1 := Step(s, e0), [e1, e2, e3, e4];
    var s2, rest2 := Step(s1, e1), [e2, e3, e4];
    var s3, rest3 := Step(s2, e2), [e3, e4];
    assert [e0, e1, e2, e3, e4] == [e0] + rest1 && rest1 == [e1] + rest2 && rest2 == [e2] + rest3;
    assert rest3 == [e3] + [e4] && [e4] == [e4] + [];
    ExecCons(s, e0, rest1);
    ExecCons(s1, e1, rest2);
    ExecCons(s2, e2, rest3);
    ExecCons(s3, e3, [e4]);
    ExecCons(Step(s3, e3), e4, []);
  }

  lemma {:induction false} OneEligibleOutput(job: Job, clips: map<Id, Clip>, c: Id)
    requires |job.outputs| == 1 && job.outputs[0].usable && job.outputs[0].clip == Some(c)
    requires Eligible(job, job.outputs[0], clips, {})
    ensures Collect(job, job.outputs, clips, {}, map[]) == Some(map[c := WithTake(clips[c], job.outputs[0].id)])
  {
    assert job.outputs[1..] == [];
  }

  /** Had a pass read the receipts first, a second pass of the same run could attach in between,
      and an edit in between could undo it: the pass would attach again. */
  lemma {:induction false} ReceiptsFirstWouldAttachTwice() returns (early: State, schedule: seq<Event>, job: Job)
    ensures Invariant(early)
    ensures var late := Exec(early, schedule);
            var stale := Ready(job, late.revision, late.clips, Receipts(early.groups, job.run));
            Commits(late, stale, true) && !Ascending(Committed(late, stale).groups)
  {
    var clip := Clip(Some(7), None, 0);
    var clips: map<Id, Clip> := map[1 := clip];
    job := Job(3, [Item(Some(1), 7)], [Output(9, Some(1), true)]);
    early := State(1, clips, [], map[]);
    assert RequestFor(job.items, 1) == Some(job.items[0]);
    OneEligibleOutput(job, clips, 1);
    hide Collect, Eligible, RequestFor, Receipts, Exec;
    schedule := [Begin(0, job), ReadHead(0), ReadReceipts(0), Submit(0, true), Edit(clips, {})];
    ExecFive(early, Begin(0, job), ReadHead(0), ReadReceipts(0), Submit(0, true), Edit(clips, {}));
    var s3 := Step(Step(Step(early, Begin(0, job)), ReadHead(0)), ReadReceipts(0));
    var s4 := Step(s3, Submit(0, true));
    assert Receipts([], 3) == {};
    var found := map[1 := WithTake(clip, 9)];
    assert 1 in found && found != map[];
    assert s3.passes[0] == Ready(job, 1, clips, {});
    assert s4.groups == [Group(System(3), found.Keys)] && s4.revision == 2;
    var late := Step(s4, Edit(clips, {}));
    var twice := Committed(late, Ready(job, late.revision, late.clips, {})).groups;
    assert BothAttach(twice[0], twice[2], 1);
  }

  // The owner that retries.

  const POLL_INTERVAL := 400
  const MAXIMUM_RETRY_DELAY := 5000
  const MISSING_POLL_LIMIT := 15

  /** What a poll finds: the job's record, and, if that is there, how the attachment went. */
  datatype Round =
    | Missing
    | Unreadable(retry: bool)
    | Found(terminal: bool, attached: bool, retry: bool)

  datatype OwnerState = OwnerState(missingPolls: nat, announced: bool, delay: nat)

  const FRESH := OwnerState(0, false, POLL_INTERVAL)

  function Min(a: nat, b: nat): nat {
    if a < b then a else b
  }

  function Failed(o: OwnerState, retry: bool): OwnerState {
    if retry then o.(delay := Min(o.delay * 2, MAXIMUM_RETRY_DELAY)) else o
  }

  /** The new state, whether the owner is done, and whether it announced the end just now. */
  function Polled(o: OwnerState, r: Round): (OwnerState, bool, bool) {
    match r
    case Missing => (o.(missingPolls := o.missingPolls + 1), o.missingPolls + 1 >= MISSING_POLL_LIMIT, false)
    case Unreadable(retry) => (Failed(o, retry), !retry, false)
    case Found(terminal, attached, retry) =>
      var p := o.(missingPolls := 0, announced := o.announced || terminal);
      if attached then (p.(delay := POLL_INTERVAL), terminal, terminal && !o.announced)
      else (Failed(p, retry), !retry && terminal, terminal && !o.announced)
  }

  class MaterializationOwner {
    var missingPolls: nat
    var terminalAnnounced: bool
    var retryDelay: nat

    ghost function Now(): OwnerState
      reads this
    {
      OwnerState(missingPolls, terminalAnnounced, retryDelay)
    }

    constructor ()
      ensures Now() == FRESH
    {
      missingPolls, terminalAnnounced, retryDelay := 0, false, POLL_INTERVAL;
    }

    method Poll(r: Round) returns (done: bool, announced: bool)
      modifies this
      ensures (Now(), done, announced) == Polled(old(Now()), r)
    {
      announced := false;
      match r {
        case Missing =>
          missingPolls := missingPolls + 1;
          done := missingPolls >= MISSING_POLL_LIMIT;
        case Unreadable(retry) =>
          done := Fail(retry);
        case Found(terminal, attached, retry) =>
          missingPolls := 0;
          if terminal && !terminalAnnounced {
            announced := true;
            terminalAnnounced := true;
          }
          if attached {
            retryDelay := POLL_INTERVAL;
            done := terminal;
          } else {
            var gaveUp := Fail(retry);
            done := gaveUp && terminal;
          }
      }
    }

    method Fail(retry: bool) returns (gaveUp: bool)
      modifies this`retryDelay
      ensures Now() == Failed(old(Now()), retry) && gaveUp == !retry
    {
      if retry {
        retryDelay := Min(retryDelay * 2, MAXIMUM_RETRY_DELAY);
      }
      return !retry;
    }
  }

  /** Polls since the record was last found that did not find it. */
  function MissingSince(rounds: seq<Round>): nat {
    if rounds == [] then 0
    else
      var before := MissingSince(rounds[..|rounds| - 1]);
      match rounds[|rounds| - 1]
      case Missing => before + 1
      case Unreadable(_) => before
      case Found(_, _, _) => 0
  }

  /** Retryable failures since the last attachment. */
  function Failures(rounds: seq<Round>): nat {
    if rounds == [] then 0
    else
      var before := Failures(rounds[..|rounds| - 1]);
      match rounds[|rounds| - 1]
      case Missing => before
      case Unreadable(retry) => if retry then before + 1 else before
      case Found(_, attached, retry) => if attached then 0 else if retry then before + 1 else before
  }

  function TwoTo(n: nat): (p: nat)
    ensures p >= 1 && p >= n
  {
    if n == 0 then 1 else 2 * TwoTo(n - 1)
  }

  /** The owner after rounds none of which but perhaps the last was its end. */
  function After(rounds: seq<Round>): OwnerState {
    if rounds == [] then FRESH else Polled(After(rounds[..|rounds| - 1]), rounds[|rounds| - 1]).0
  }

  predicate Done(rounds: seq<Round>) {
    rounds != [] && Polled(After(rounds[..|rounds| - 1]), rounds[|rounds| - 1]).1
  }

  function Announcements(rounds: seq<Round>): nat {
    if rounds == [] then 0
    else Announcements(rounds[..|rounds| - 1])
         + if Polled(After(rounds[..|rounds| - 1]), rounds[|rounds| - 1]).2 then 1 else 0
  }

  /** The wait doubles with every retryable failure up to its bound. */
  lemma {:induction false} OwnerWaits(rounds: seq<Round>)
    ensures After(rounds).missingPolls == MissingSince(rounds)
    ensures After(rounds).delay == Min(400 * TwoTo(Failures(rounds)), 5000)
  {
    if rounds != [] {
      OwnerWaits(rounds[..|rounds| - 1]);
    }
  }

  predicate SawTheEnd(rounds: seq<Round>) {
    exists i :: 0 <= i < |rounds| && rounds[i].Found? && rounds[i].terminal
  }

  /** The end of the job is announced once, in the first round that sees it. */
  lemma {:induction false} AnnouncedOnce(rounds: seq<Round>)
    ensures Announcements(rounds) == if SawTheEnd(rounds) then 1 else 0
    ensures After(rounds).announced <==> SawTheEnd(rounds)
  {
    if rounds != [] {
      var before, last := rounds[..|rounds| - 1], rounds[|rounds| - 1];
      AnnouncedOnce(before);
      assert SawTheEnd(before) ==> SawTheEnd(rounds) by {
        if i :| 0 <= i < |before| && before[i].Found? && before[i].terminal {
          assert rounds[i] == before[i];
        }
      }
      assert SawTheEnd(rounds) ==> SawTheEnd(before) || (last.Found? && last.terminal) by {
        if i :| 0 <= i < |rounds| && rounds[i].Found? && rounds[i].terminal {
          assert i < |before| ==> before[i] == rounds[i];
        }
      }
    }
  }

  /** The owner lets go only of a record it missed fifteen times without finding it in between,
      of one it cannot read for good, or of a finished job whose attachment succeeded or failed
      for good. In particular a contended attachment is never abandoned. */
  lemma {:induction false} DoneMeans(rounds: seq<Round>)
    requires rounds != []
    ensures var last := rounds[|rounds| - 1];
            Done(rounds) <==>
              match last
              case Missing => MissingSince(rounds) >= 15
              case Unreadable(retry) => !retry
              case Found(terminal, attached, retry) => terminal && (attached || !retry)
  {
    OwnerWaits(rounds[..|rounds| - 1]);
  }
}
