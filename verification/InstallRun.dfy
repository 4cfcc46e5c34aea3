/**
 A whole installer run (scripts/install.py, `_preflight_install`, `_sync_skill` and `_run_install`):
 many targets, some of them aliases of one directory, and many skills. A target directory is known by
 its path key, the normalised real path, so two targets with one key are one directory.
 */
module InstallRun {
  import opened Outcomes
  import opened DirectorySwap

  type Key = string

  datatype Root<T> = NoRoot | NotDirectory | Root(entries: map<string, Node<T>>)

  datatype Target = Target(name: string, key: Key, optionalIfAbsent: bool, explicitlySelected: bool)

  datatype Skill<!T> = Skill(name: string, spec: Spec<T>)

  datatype Mode = Install | DryRun | VerifyOnly

  /** One skill at one target: whether reading the existing copy fails, and the faults of the swap. */
  datatype Attempt<T> = Attempt(readFails: bool, swap: Faults<T>)

  datatype Action = Active | Covered(owner: string) | SkippedAbsent

  datatype Status = Missing | WouldInstall | Added | Verified | Unchanged | Drift | WouldUpdate | Updated

  datatype InstallError =
    | UnsafeTarget | OptionalAbsent | TargetNotDirectory | UnfitDestination | Unreadable | SignedMismatch | SwapFailed

  datatype TargetStatus =
    | CoveredBy(owner: string) | Skipped | MissingTarget | FailedVerification | ChangesPlanned | Okay | Error

  datatype TargetResult = TargetResult(name: string, status: TargetStatus, skills: seq<Status>)

  datatype Report = Report(success: bool, targets: seq<TargetResult>)

  function RootAt<T>(roots: map<Key, Root<T>>, key: Key): (r: Root<T>) {
    if key in roots then roots[key] else NoRoot
  }

  function EntryAt<T>(root: Root<T>, name: string): (r: Node<T>) {
    if root.Root? && name in root.entries then root.entries[name] else Absent
  }

  // ---------- Preflight ----------

  /** Target i is another name for the directory of an active earlier target j. */
  ghost predicate Aliases(targets: seq<Target>, actions: seq<Action>, i: int, j: int) {
    0 <= j < i < |targets| && j < |actions| && actions[j].Active? && targets[j].key == targets[i].key
  }

  /** How target i is treated, given the actions for the targets before it. */
  ghost predicate Chosen<T>(roots: map<Key, Root<T>>, targets: seq<Target>, actions: seq<Action>, i: int)
    requires 0 <= i < |actions| <= |targets|
  {
    match actions[i]
    case Covered(owner) => exists j :: Aliases(targets, actions, i, j) && owner == targets[j].name
    case SkippedAbsent =>
      (forall j :: !Aliases(targets, actions, i, j)) &&
      targets[i].optionalIfAbsent && RootAt(roots, targets[i].key).NoRoot?
    case Active =>
      (forall j :: !Aliases(targets, actions, i, j)) &&
      !(targets[i].optionalIfAbsent && RootAt(roots, targets[i].key).NoRoot?)
  }

  ghost predicate AllChosen<T>(roots: map<Key, Root<T>>, targets: seq<Target>, actions: seq<Action>) {
    |actions| <= |targets| && forall i :: 0 <= i < |actions| ==> Chosen(roots, targets, actions, i)
  }

  lemma ChosenSnoc<T>(
      roots: map<Key, Root<T>>, targets: seq<Target>, actions: seq<Action>, next: Action)
    requires AllChosen(roots, targets, actions) && |actions| < |targets|
    requires Chosen(roots, targets, actions + [next], |actions|)
    ensures AllChosen(roots, targets, actions + [next])
  {
    var after := actions + [next];
    forall i | 0 <= i < |actions| ensures Chosen(roots, targets, after, i) {
      assert Chosen(roots, targets, actions, i);
      assert forall j :: Aliases(targets, actions, i, j) <==> Aliases(targets, after, i, j);
    }
  }

  /** Two active targets are never one directory. */
  lemma ActiveKeysDiffer<T>(
      roots: map<Key, Root<T>>, targets: seq<Target>, actions: seq<Action>, i: int, j: int)
    requires AllChosen(roots, targets, actions)
    requires 0 <= j < i < |actions| && actions[i].Active? && actions[j].Active?
    ensures targets[i].key != targets[j].key
  {
    assert Chosen(roots, targets, actions, i) && !Aliases(targets, actions, i, j);
  }

  predicate TargetFits<T>(roots: map<Key, Root<T>>, safe: Key -> bool, target: Target) {
    var root := RootAt(roots, target.key);
    safe(target.key) && !root.NotDirectory? && !(target.optionalIfAbsent && target.explicitlySelected && root.NoRoot?)
  }

  predicate SkillsFit<T>(root: Root<T>, skills: seq<Skill<T>>) {
    forall i :: 0 <= i < |skills| ==> EntryAt(root, skills[i].name).Absent? || EntryAt(root, skills[i].name).Dir?
  }

  method PreflightInstall<T>(roots: map<Key, Root<T>>, safe: Key -> bool, targets: seq<Target>, skills: seq<Skill<T>>)
    returns (r: Result<seq<Action>, InstallError>)
    ensures r.Ok? <==>
              ((forall i :: 0 <= i < |targets| ==> TargetFits(roots, safe, targets[i])) &&
               (forall i :: 0 <= i < |targets| ==> SkillsFit(RootAt(roots, targets[i].key), skills)))
    ensures r.Ok? ==> |r.value| == |targets| && AllChosen(roots, targets, r.value)
  {
    var actions: seq<Action> := [];
    var seen: map<Key, string> := map[];
    for i := 0 to |targets|
      invariant |actions| == i && AllChosen(roots, targets, actions)
      invariant forall j :: 0 <= j < i ==> TargetFits(roots, safe, targets[j])
      invariant forall k :: k in seen ==>
                  exists j :: 0 <= j < i && actions[j].Active? && targets[j].key == k && targets[j].name == seen[k]
      invariant forall j :: 0 <= j < i && actions[j].Active? ==> targets[j].key in seen
    {
      var target := targets[i];
      var root := RootAt(roots, target.key);
      if !safe(target.key) { return Err(UnsafeTarget); }
      if target.optionalIfAbsent && target.explicitlySelected && root.NoRoot? { return Err(OptionalAbsent); }
      if root.NotDirectory? { return Err(TargetNotDirectory); }
      var next := Active;
      if target.key in seen {
        ghost var j :| 0 <= j < i && actions[j].Active? && targets[j].key == target.key &&
                       targets[j].name == seen[target.key];
        next := Covered(seen[target.key]);
        assert Aliases(targets, actions + [next], i, j);
      } else if target.optionalIfAbsent && root.NoRoot? {
        next := SkippedAbsent;
      } else {
        seen := seen[target.key := target.name];
      }
      ChosenSnoc(roots, targets, actions, next);
      actions := actions + [next];
    }
    for i := 0 to |targets|
      invariant forall j :: 0 <= j < i && actions[j].Active? ==> SkillsFit(RootAt(roots, targets[j].key), skills)
    {
      if actions[i].Active? && !SkillsFit(RootAt(roots, targets[i].key), skills) { return Err(UnfitDestination); }
    }
    forall i | 0 <= i < |targets| ensures SkillsFit(RootAt(roots, targets[i].key), skills) {
      assert Chosen(roots, targets, actions, i);
    }
    return Ok(actions);
  }

  // ---------- Synchronisation ----------

  ghost predicate SkillGood<T>(root: Root<T>, skill: Skill<T>) {
    Installed(skill.spec, EntryAt(root, skill.name))
  }

  ghost predicate SkillsGood<T>(root: Root<T>, skills: seq<Skill<T>>) {
    forall i :: 0 <= i < |skills| ==> SkillGood(root, skills[i])
  }

  ghost predicate DistinctNames<T>(skills: seq<Skill<T>>) {
    forall i, j :: 0 <= i < j < |skills| ==> skills[i].name != skills[j].name
  }

  ghost predicate Named<T>(skills: seq<Skill<T>>, name: string) {
    exists i :: 0 <= i < |skills| && skills[i].name == name
  }

  /** Only entries of these skills, below this key, differ. */
  ghost predicate OnlyAt<T>(before: map<Key, Root<T>>, after: map<Key, Root<T>>, key: Key, skills: seq<Skill<T>>) {
    (forall k :: k != key ==> RootAt(after, k) == RootAt(before, k)) &&
    (forall n :: !Named(skills, n) ==> EntryAt(RootAt(after, key), n) == EntryAt(RootAt(before, key), n)) &&
    (!RootAt(before, key).NotDirectory? ==> !RootAt(after, key).NotDirectory?) &&
    (RootAt(before, key).Root? ==> RootAt(after, key).Root?)
  }

  /** The status reported for a destination found like this, when nothing fails. */
  function StatusFor<T>(before: Node<T>, skill: Skill<T>, mode: Mode): (r: Status) {
    if before.Absent? then
      match mode case Install => Added case DryRun => WouldInstall case VerifyOnly => Missing
    else if before.Dir? && skill.spec.digest(before.tree) == skill.spec.expected then
      match mode case Install => Unchanged case DryRun => Unchanged case VerifyOnly => Verified
    else
      match mode case Install => Updated case DryRun => WouldUpdate case VerifyOnly => Drift
  }

  /** The destination can be read and is not a tampered copy with the expected digest. */
  ghost predicate Syncable<T>(before: Node<T>, skill: Skill<T>, readFails: bool) {
    before.Absent? ||
    (before.Dir? && !readFails &&
     (skill.spec.digest(before.tree) == skill.spec.expected ==> skill.spec.signed(before.tree)))
  }

  /** This skill does not stop the run at its target. */
  ghost predicate Syncs<T>(before: Node<T>, skill: Skill<T>, mode: Mode, attempt: Attempt<T>) {
    Syncable(before, skill, attempt.readFails) &&
    (StatusFor(before, skill, mode) in {Added, Updated} ==> Accepted(skill.spec, attempt.swap, before))
  }

  /** The first skills did not stop the run at a target directory found as `root`, and these are their statuses. */
  ghost predicate StatusesTo<T>(
      root: Root<T>, skills: seq<Skill<T>>, mode: Mode, attempts: int -> Attempt<T>, statuses: seq<Status>)
  {
    |statuses| <= |skills| &&
    forall i :: 0 <= i < |statuses| ==>
      Syncs(EntryAt(root, skills[i].name), skills[i], mode, attempts(i)) &&
      statuses[i] == StatusFor(EntryAt(root, skills[i].name), skills[i], mode)
  }

  /** What is reported there: one status for each skill up to the first that stops the run. */
  ghost predicate Statuses<T>(
      root: Root<T>, skills: seq<Skill<T>>, mode: Mode, attempts: int -> Attempt<T>, statuses: seq<Status>)
  {
    StatusesTo(root, skills, mode, attempts, statuses) &&
    (|statuses| < |skills| ==>
       !Syncs(EntryAt(root, skills[|statuses|].name), skills[|statuses|], mode, attempts(|statuses|)))
  }

  class Machine<T(==)> {
    var roots: map<Key, Root<T>>

    constructor (roots: map<Key, Root<T>>)
      ensures this.roots == roots
    {
      this.roots := roots;
    }

    method SyncSkill(
        key: Key, skill: Skill<T>, mode: Mode, attempt: Attempt<T>)
      returns (r: Result<Status, InstallError>)
      requires !RootAt(roots, key).NotDirectory?
      modifies this
      ensures OnlyAt(old(roots), roots, key, [skill])
      ensures !mode.Install? ==> roots == old(roots)
      ensures mode.Install? && r.Ok? ==> RootAt(roots, key).Root? && SkillGood(RootAt(roots, key), skill)
      ensures r == Ok(Verified) || r == Ok(Unchanged) ==> SkillGood(RootAt(old(roots), key), skill)
      ensures SkillGood(RootAt(old(roots), key), skill) && !attempt.readFails ==>
                (mode.VerifyOnly? ==> r == Ok(Verified)) && (!mode.VerifyOnly? ==> r == Ok(Unchanged)) &&
                roots == old(roots)
      ensures var before := EntryAt(RootAt(old(roots), key), skill.name);
              (r.Ok? <==> Syncs(before, skill, mode, attempt)) && (r.Ok? ==> r.value == StatusFor(before, skill, mode))
    {
      var destination := EntryAt(RootAt(roots, key), skill.name);
      if destination.Link? { return Err(UnfitDestination); }
      if destination.Absent? {
        if mode.Install? {
          var ok := Copy(key, skill, attempt.swap);
          return if ok then Ok(Added) else Err(SwapFailed);
        }
        return Ok(if mode.VerifyOnly? then Missing else WouldInstall);
      }
      if !destination.Dir? { return Err(UnfitDestination); }
      if attempt.readFails { return Err(Unreadable); }
      if skill.spec.digest(destination.tree) == skill.spec.expected {
        if !skill.spec.signed(destination.tree) { return Err(SignedMismatch); }
        return Ok(if mode.VerifyOnly? then Verified else Unchanged);
      }
      if mode.Install? {
        var ok := Copy(key, skill, attempt.swap);
        return if ok then Ok(Updated) else Err(SwapFailed);
      }
      return Ok(if mode.VerifyOnly? then Drift else WouldUpdate);
    }

    /** Runs the swap on one entry; the target directory is created first. */
    method Copy(key: Key, skill: Skill<T>, faults: Faults<T>) returns (ok: bool)
      requires !RootAt(roots, key).NotDirectory?
      modifies this
      ensures OnlyAt(old(roots), roots, key, [skill])
      ensures ok <==> Accepted(skill.spec, faults, EntryAt(RootAt(old(roots), key), skill.name))
      ensures ok ==> RootAt(roots, key).Root? && SkillGood(RootAt(roots, key), skill)
    {
      var root := RootAt(roots, key);
      var disk := new Disk(EntryAt(root, skill.name));
      ok := disk.TransactionalCopy(skill.spec, faults);
      if ok || !faults.rootFails {
        var entries := if root.Root? then root.entries else map[];
        roots := roots[key := Root(entries[skill.name := disk.destination])];
        assert Named([skill], skill.name) by { assert [skill][0].name == skill.name; }
      }
    }

    method SyncTarget(key: Key, skills: seq<Skill<T>>, mode: Mode, attempts: int -> Attempt<T>)
      returns (statuses: seq<Status>, error: Option<InstallError>)
      requires !RootAt(roots, key).NotDirectory? && DistinctNames(skills)
      modifies this
      ensures OnlyAt(old(roots), roots, key, skills)
      ensures Statuses(RootAt(old(roots), key), skills, mode, attempts, statuses)
      ensures error.None? <==> |statuses| == |skills|
      ensures !mode.Install? ==> roots == old(roots)
      ensures mode.Install? && error.None? && skills != [] ==> RootAt(roots, key).Root?
      ensures mode.Install? && error.None? ==> SkillsGood(RootAt(roots, key), skills)
      ensures mode.VerifyOnly? && error.None? && Missing !in statuses && Drift !in statuses ==>
                SkillsGood(RootAt(roots, key), skills)
      ensures SkillsGood(RootAt(old(roots), key), skills) &&
              (forall i :: 0 <= i < |skills| ==> !attempts(i).readFails) ==>
                roots == old(roots)
    {
      ghost var start := roots;
      ghost var good :=
        SkillsGood(RootAt(start, key), skills) && forall i :: 0 <= i < |skills| ==> !attempts(i).readFails;
      statuses := [];
      for i := 0 to |skills|
        invariant |statuses| == i
        invariant OnlyAt(start, roots, key, skills[..i])
        invariant StatusesTo(RootAt(start, key), skills, mode, attempts, statuses)
        invariant !mode.Install? ==> roots == start
        invariant mode.Install? && 0 < i ==> RootAt(roots, key).Root?
        invariant mode.Install? ==> forall j :: 0 <= j < i ==> SkillGood(RootAt(roots, key), skills[j])
        invariant good ==> roots == start
      {
        ghost var before := roots;
        NotYetSynced(start, before, key, skills, i);
        if good { assert SkillGood(RootAt(start, key), skills[i]); }
        var r := SyncSkill(key, skills[i], mode, attempts(i));
        OnlyAtSnoc(start, before, roots, key, skills, i);
        if r.Err? {
          return statuses, Some(r.error);
        }
        StatusesSnoc(RootAt(start, key), skills, mode, attempts, statuses, r.value);
        statuses := statuses + [r.value];
      }
      assert skills[..|skills|] == skills;
      if mode.VerifyOnly? { VerifiedIsGood(RootAt(roots, key), skills, attempts, statuses); }
      return statuses, None;
    }
  }

  lemma StatusesSnoc<T>(
      root: Root<T>, skills: seq<Skill<T>>, mode: Mode, attempts: int -> Attempt<T>, statuses: seq<Status>,
      last: Status)
    requires StatusesTo(root, skills, mode, attempts, statuses) && |statuses| < |skills|
    requires var skill, attempt := skills[|statuses|], attempts(|statuses|);
             Syncs(EntryAt(root, skill.name), skill, mode, attempt) &&
             last == StatusFor(EntryAt(root, skill.name), skill, mode)
    ensures StatusesTo(root, skills, mode, attempts, statuses + [last])
  {
  }

  lemma VerifiedIsGood<T>(
      root: Root<T>, skills: seq<Skill<T>>, attempts: int -> Attempt<T>, statuses: seq<Status>)
    requires StatusesTo(root, skills, VerifyOnly, attempts, statuses) && |statuses| == |skills|
    ensures Missing !in statuses && Drift !in statuses ==> SkillsGood(root, skills)
  {
    if Missing !in statuses && Drift !in statuses {
      forall i | 0 <= i < |skills| ensures SkillGood(root, skills[i]) {
        assert statuses[i] in statuses;
      }
    }
  }

  lemma NotYetSynced<T>(
      before: map<Key, Root<T>>, now: map<Key, Root<T>>, key: Key, skills: seq<Skill<T>>, i: int)
    requires 0 <= i < |skills| && DistinctNames(skills) && OnlyAt(before, now, key, skills[..i])
    ensures EntryAt(RootAt(now, key), skills[i].name) == EntryAt(RootAt(before, key), skills[i].name)
  {
    assert !Named(skills[..i], skills[i].name);
  }

  lemma NamedSnoc<T>(skills: seq<Skill<T>>, i: int, n: string)
    requires 0 <= i < |skills|
    ensures Named(skills[..i + 1], n) <==> Named(skills[..i], n) || Named([skills[i]], n)
    ensures Named(skills[..i + 1], n) ==> Named(skills, n)
  {
    var upTo := skills[..i + 1];
    assert upTo == skills[..i] + [skills[i]];
    if Named(upTo, n) {
      var j :| 0 <= j < |upTo| && upTo[j].name == n;
      assert skills[j].name == n;
      if j < i { assert skills[..i][j].name == n; } else { assert [skills[i]][0].name == n; }
    }
    if Named(skills[..i], n) {
      var j :| 0 <= j < |skills[..i]| && skills[..i][j].name == n;
      assert upTo[j].name == n;
    }
    if Named([skills[i]], n) {
      assert upTo[i].name == n;
    }
  }

  lemma OnlyAtSnoc<T>(
    before: map<Key, Root<T>>, middle: map<Key, Root<T>>, after: map<Key, Root<T>>, key: Key, skills: seq<Skill<T>>,
    i: int)
    requires 0 <= i < |skills| && OnlyAt(before, middle, key, skills[..i]) && OnlyAt(middle, after, key, [skills[i]])
    ensures OnlyAt(before, after, key, skills[..i + 1]) && OnlyAt(before, after, key, skills)
    ensures DistinctNames(skills) ==>
              forall j :: 0 <= j < i ==>
                EntryAt(RootAt(after, key), skills[j].name) == EntryAt(RootAt(middle, key), skills[j].name)
  {
    forall n ensures Named(skills[..i + 1], n) <==> Named(skills[..i], n) || Named([skills[i]], n)
             ensures Named(skills[..i + 1], n) ==> Named(skills, n)
    {
      NamedSnoc(skills, i, n);
    }
    if DistinctNames(skills) {
      forall j | 0 <= j < i
        ensures EntryAt(RootAt(after, key), skills[j].name) == EntryAt(RootAt(middle, key), skills[j].name)
      {
        assert !Named([skills[i]], skills[j].name);
      }
    }
  }

  // ---------- The whole run ----------

  /** What a run is to achieve at one target: every skill verified, or an optional target left absent. */
  ghost predicate TargetGood<T>(roots: map<Key, Root<T>>, target: Target, skills: seq<Skill<T>>) {
    var root := RootAt(roots, target.key);
    (root.Root? && SkillsGood(root, skills)) ||
    (root.NoRoot? && target.optionalIfAbsent && !target.explicitlySelected)
  }

  ghost predicate Converged<T>(roots: map<Key, Root<T>>, targets: seq<Target>, skills: seq<Skill<T>>) {
    forall i :: 0 <= i < |targets| ==> TargetGood(roots, targets[i], skills)
  }

  ghost predicate IsActiveKey(targets: seq<Target>, actions: seq<Action>, key: Key, n: int) {
    exists j :: 0 <= j < n && j < |actions| && j < |targets| && actions[j].Active? && targets[j].key == key
  }

  /** Below the targets' keys only entries of the skills differ, and nothing differs elsewhere. */
  ghost predicate OnlySkills<T>(
      before: map<Key, Root<T>>, after: map<Key, Root<T>>, targets: seq<Target>, skills: seq<Skill<T>>)
  {
    (forall k :: (forall i :: 0 <= i < |targets| ==> targets[i].key != k) ==> RootAt(after, k) == RootAt(before, k)) &&
    (forall k, n :: !Named(skills, n) ==> EntryAt(RootAt(after, k), n) == EntryAt(RootAt(before, k), n)) &&
    (forall k :: RootAt(before, k).Root? ==> RootAt(after, k).Root?)
  }

  /** Nothing differs at a key that is not among the first n active ones. */
  ghost predicate Untouched<T>(
      start: map<Key, Root<T>>, now: map<Key, Root<T>>, targets: seq<Target>, actions: seq<Action>, n: int)
  {
    forall k :: !IsActiveKey(targets, actions, k, n) ==> RootAt(now, k) == RootAt(start, k)
  }

  ghost predicate KeyGood<T>(roots: map<Key, Root<T>>, key: Key, skills: seq<Skill<T>>) {
    RootAt(roots, key).Root? && SkillsGood(RootAt(roots, key), skills)
  }

  ghost predicate ActiveGood<T>(
      now: map<Key, Root<T>>, targets: seq<Target>, actions: seq<Action>, skills: seq<Skill<T>>, n: int)
    requires 0 <= n <= |actions| <= |targets|
  {
    forall j :: 0 <= j < n && actions[j].Active? ==> KeyGood(now, targets[j].key, skills)
  }

  ghost predicate AllFit<T>(roots: map<Key, Root<T>>, safe: Key -> bool, targets: seq<Target>) {
    forall i :: 0 <= i < |targets| ==> TargetFits(roots, safe, targets[i])
  }

  lemma UntouchedMore<T>(
      start: map<Key, Root<T>>, now: map<Key, Root<T>>, targets: seq<Target>, actions: seq<Action>, n: int)
    requires Untouched(start, now, targets, actions, n)
    ensures Untouched(start, now, targets, actions, n + 1)
  {
    forall k | !IsActiveKey(targets, actions, k, n + 1) ensures !IsActiveKey(targets, actions, k, n) {
    }
  }

  lemma NotYetTouched<T>(
    start: map<Key, Root<T>>, now: map<Key, Root<T>>, safe: Key -> bool, targets: seq<Target>, actions: seq<Action>,
    i: int)
    requires |actions| == |targets| && 0 <= i < |targets| && actions[i].Active?
    requires AllChosen(start, targets, actions) && AllFit(start, safe, targets) &&
             Untouched(start, now, targets, actions, i)
    ensures RootAt(now, targets[i].key) == RootAt(start, targets[i].key) && !RootAt(now, targets[i].key).NotDirectory?
  {
    if IsActiveKey(targets, actions, targets[i].key, i) {
      var j :| 0 <= j < i && actions[j].Active? && targets[j].key == targets[i].key;
      ActiveKeysDiffer(start, targets, actions, i, j);
    }
    assert TargetFits(start, safe, targets[i]);
  }

  lemma TouchActive<T>(
    start: map<Key, Root<T>>, before: map<Key, Root<T>>, after: map<Key, Root<T>>,
    targets: seq<Target>, actions: seq<Action>, skills: seq<Skill<T>>, i: int)
    requires |actions| == |targets| && 0 <= i < |targets| && actions[i].Active?
    requires AllChosen(start, targets, actions)
    requires Untouched(start, before, targets, actions, i) && OnlySkills(start, before, targets, skills)
    requires OnlyAt(before, after, targets[i].key, skills)
    ensures Untouched(start, after, targets, actions, i + 1) && OnlySkills(start, after, targets, skills)
    ensures ActiveGood(before, targets, actions, skills, i) && KeyGood(after, targets[i].key, skills) ==>
              ActiveGood(after, targets, actions, skills, i + 1)
  {
    UntouchedMore(start, before, targets, actions, i);
    assert IsActiveKey(targets, actions, targets[i].key, i + 1);
    forall k, n | !Named(skills, n) ensures EntryAt(RootAt(after, k), n) == EntryAt(RootAt(start, k), n) {
      assert EntryAt(RootAt(before, k), n) == EntryAt(RootAt(start, k), n);
    }
    forall j | 0 <= j < i && actions[j].Active? ensures targets[j].key != targets[i].key {
      ActiveKeysDiffer(start, targets, actions, i, j);
    }
  }

  lemma AllActiveGoodConverges<T>(
    start: map<Key, Root<T>>, now: map<Key, Root<T>>, safe: Key -> bool,
    targets: seq<Target>, actions: seq<Action>, skills: seq<Skill<T>>)
    requires |actions| == |targets| && AllChosen(start, targets, actions) && AllFit(start, safe, targets)
    requires Untouched(start, now, targets, actions, |targets|) && ActiveGood(now, targets, actions, skills, |targets|)
    ensures Converged(now, targets, skills)
  {
    forall i | 0 <= i < |targets| ensures TargetGood(now, targets[i], skills) {
      assert Chosen(start, targets, actions, i) && TargetFits(start, safe, targets[i]);
      if actions[i].Covered? {
        var j :| Aliases(targets, actions, i, j) && actions[i].owner == targets[j].name;
        assert IsActiveKey(targets, actions, targets[i].key, |targets|);
      }
      if IsActiveKey(targets, actions, targets[i].key, |targets|) {
        var j :| 0 <= j < |targets| && actions[j].Active? && targets[j].key == targets[i].key;
        assert KeyGood(now, targets[j].key, skills);
      }
    }
  }

  lemma ConvergedActive<T>(
    start: map<Key, Root<T>>, targets: seq<Target>, actions: seq<Action>, skills: seq<Skill<T>>, i: int)
    requires |actions| == |targets| && 0 <= i < |targets| && actions[i].Active?
    requires AllChosen(start, targets, actions) && Converged(start, targets, skills)
    ensures KeyGood(start, targets[i].key, skills)
  {
    assert Chosen(start, targets, actions, i) && TargetGood(start, targets[i], skills);
  }

  lemma ConvergedFits<T>(
      roots: map<Key, Root<T>>, safe: Key -> bool, targets: seq<Target>, skills: seq<Skill<T>>)
    requires Converged(roots, targets, skills) && forall i :: 0 <= i < |targets| ==> safe(targets[i].key)
    ensures AllFit(roots, safe, targets)
    ensures forall i :: 0 <= i < |targets| ==> SkillsFit(RootAt(roots, targets[i].key), skills)
  {
    forall i | 0 <= i < |targets|
      ensures TargetFits(roots, safe, targets[i]) && SkillsFit(RootAt(roots, targets[i].key), skills)
    {
      var root := RootAt(roots, targets[i].key);
      assert TargetGood(roots, targets[i], skills);
      if root.Root? {
        forall j | 0 <= j < |skills| ensures EntryAt(root, skills[j].name).Dir? { assert SkillGood(root, skills[j]); }
      }
    }
  }

  // ---------- The report ----------

  predicate Failing(r: TargetResult) {
    r.status in {Error, FailedVerification, MissingTarget}
  }

  predicate NoneFailing(results: seq<TargetResult>) {
    forall i :: 0 <= i < |results| ==> !Failing(results[i])
  }

  lemma NoneFailingSnoc(results: seq<TargetResult>, last: TargetResult)
    ensures NoneFailing(results + [last]) <==> NoneFailing(results) && !Failing(last)
  {
    var all := results + [last];
    assert all[|results|] == last && forall i :: 0 <= i < |results| ==> all[i] == results[i];
  }

  /** The status of a target at which no skill failed. */
  function Summary(statuses: seq<Status>, mode: Mode): (r: TargetStatus) {
    if Missing in statuses || Drift in statuses then FailedVerification
    else if mode.DryRun? && (WouldInstall in statuses || WouldUpdate in statuses) then ChangesPlanned
    else Okay
  }

  /** What is reported for an active target whose directory was found as `root`. */
  ghost predicate ActiveReported<T>(
    root: Root<T>, target: Target, skills: seq<Skill<T>>, mode: Mode, attempts: int -> Attempt<T>, r: TargetResult)
  {
    r.name == target.name &&
    if mode.VerifyOnly? && root.NoRoot? then r.status == MissingTarget && r.skills == []
    else
      Statuses(root, skills, mode, attempts, r.skills) &&
      r.status == if |r.skills| < |skills| then Error else Summary(r.skills, mode)
  }

  ghost predicate Reported<T>(
    root: Root<T>, target: Target, action: Action, skills: seq<Skill<T>>, mode: Mode, attempts: int -> Attempt<T>,
    r: TargetResult)
  {
    match action
    case Covered(owner) => r == TargetResult(target.name, CoveredBy(owner), [])
    case SkippedAbsent => r == TargetResult(target.name, Skipped, [])
    case Active => ActiveReported(root, target, skills, mode, attempts, r)
  }

  /** The first targets' results are reported so. */
  ghost predicate ReportedTo<T>(
    start: map<Key, Root<T>>, targets: seq<Target>, actions: seq<Action>, skills: seq<Skill<T>>, mode: Mode,
    attempts: int -> int -> Attempt<T>, results: seq<TargetResult>)
    requires |results| <= |actions| && |results| <= |targets|
  {
    forall i :: 0 <= i < |results| ==>
      Reported(RootAt(start, targets[i].key), targets[i], actions[i], skills, mode, attempts(i), results[i])
  }

  lemma ReportedSnoc<T>(
    start: map<Key, Root<T>>, targets: seq<Target>, actions: seq<Action>, skills: seq<Skill<T>>, mode: Mode,
    attempts: int -> int -> Attempt<T>, results: seq<TargetResult>, last: TargetResult)
    requires |results| < |actions| && |results| < |targets|
    requires ReportedTo(start, targets, actions, skills, mode, attempts, results)
    requires var i := |results|;
             Reported(RootAt(start, targets[i].key), targets[i], actions[i], skills, mode, attempts(i), last)
    ensures ReportedTo(start, targets, actions, skills, mode, attempts, results + [last])
    ensures NoneFailing(results + [last]) <==> NoneFailing(results) && !Failing(last)
  {
    NoneFailingSnoc(results, last);
  }

  /** A whole report: each target's, as the machine was at the start, and success when none fails. */
  ghost predicate RunReported<T>(
    start: map<Key, Root<T>>, targets: seq<Target>, actions: seq<Action>, skills: seq<Skill<T>>, mode: Mode,
    attempts: int -> int -> Attempt<T>, report: Report)
  {
    |actions| == |targets| == |report.targets| && AllChosen(start, targets, actions) &&
    ReportedTo(start, targets, actions, skills, mode, attempts, report.targets) &&
    (report.success <==> NoneFailing(report.targets))
  }

  /** Every skill is listed with this status. */
  ghost predicate AllListed(r: TargetResult, n: nat, status: Status) {
    r.status == Okay && |r.skills| == n && forall i :: 0 <= i < n ==> r.skills[i] == status
  }

  /** What a reported status tells of the destination found and of the mode. */
  lemma StatusTells<T>(before: Node<T>, skill: Skill<T>, mode: Mode, attempt: Attempt<T>)
    requires Syncs(before, skill, mode, attempt)
    ensures var status := StatusFor(before, skill, mode);
            (status in {Verified, Unchanged} <==> Installed(skill.spec, before)) &&
            (status in {Missing, WouldInstall, Added} <==> before.Absent?) &&
            (status in {Missing, Verified, Drift} <==> mode.VerifyOnly?) &&
            (status in {WouldInstall, WouldUpdate} ==> mode.DryRun?) &&
            (status in {Added, Updated} ==> mode.Install?)
  {
  }

  /** When no skill stops it, a verify-only or dry run says okay exactly of a target where every skill is good. */
  lemma TargetStatusTells<T>(
    root: Root<T>, target: Target, skills: seq<Skill<T>>, mode: Mode, attempts: int -> Attempt<T>, r: TargetResult)
    requires root.Root? && ActiveReported(root, target, skills, mode, attempts, r) && |r.skills| == |skills|
    ensures mode.Install? ==> r.status == Okay
    ensures mode.VerifyOnly? ==> r.status == if SkillsGood(root, skills) then Okay else FailedVerification
    ensures mode.DryRun? ==> r.status == if SkillsGood(root, skills) then Okay else ChangesPlanned
  {
    forall i | 0 <= i < |skills|
      ensures r.skills[i] in {Verified, Unchanged} <==> SkillGood(root, skills[i])
      ensures mode.VerifyOnly? <==> r.skills[i] in {Missing, Verified, Drift}
      ensures r.skills[i] in {WouldInstall, WouldUpdate} ==> mode.DryRun?
    {
      StatusTells(EntryAt(root, skills[i].name), skills[i], mode, attempts(i));
    }
    forall i | 0 <= i < |skills| ensures r.skills[i] in r.skills {}
    if r.status == Okay && !mode.Install? {
      forall i | 0 <= i < |skills| ensures SkillGood(root, skills[i]) { assert r.skills[i] in r.skills; }
    }
  }

  lemma GoodIsSettled<T>(
    root: Root<T>, target: Target, skills: seq<Skill<T>>, mode: Mode, attempts: int -> Attempt<T>, r: TargetResult)
    requires root.Root? && SkillsGood(root, skills) && forall i :: !attempts(i).readFails
    requires ActiveReported(root, target, skills, mode, attempts, r)
    ensures mode.VerifyOnly? ==> AllListed(r, |skills|, Verified)
    ensures !mode.VerifyOnly? ==> AllListed(r, |skills|, Unchanged)
  {
    forall i | 0 <= i < |skills|
      ensures Syncs(EntryAt(root, skills[i].name), skills[i], mode, attempts(i))
      ensures StatusFor(EntryAt(root, skills[i].name), skills[i], mode) ==
              if mode.VerifyOnly? then Verified else Unchanged
    {
      assert SkillGood(root, skills[i]);
    }
  }

  /**
   On a converged machine the run is a success and every active target lists every skill: as verified in a
   verify-only run, as unchanged in an install or a dry run.
   */
  lemma ConvergedReport<T>(
    start: map<Key, Root<T>>, targets: seq<Target>, actions: seq<Action>, skills: seq<Skill<T>>, mode: Mode,
    attempts: int -> int -> Attempt<T>, report: Report)
    requires RunReported(start, targets, actions, skills, mode, attempts, report)
    requires Converged(start, targets, skills) && forall i, j :: !attempts(i)(j).readFails
    ensures mode.VerifyOnly? ==>
              forall i :: 0 <= i < |targets| && actions[i].Active? ==> AllListed(report.targets[i], |skills|, Verified)
    ensures !mode.VerifyOnly? ==>
              forall i :: 0 <= i < |targets| && actions[i].Active? ==> AllListed(report.targets[i], |skills|, Unchanged)
    ensures report.success
  {
    forall i | 0 <= i < |targets| && actions[i].Active?
      ensures mode.VerifyOnly? ==> AllListed(report.targets[i], |skills|, Verified)
      ensures !mode.VerifyOnly? ==> AllListed(report.targets[i], |skills|, Unchanged)
    {
      ConvergedActive(start, targets, actions, skills, i);
      GoodIsSettled(RootAt(start, targets[i].key), targets[i], skills, mode, attempts(i), report.targets[i]);
    }
    forall i | 0 <= i < |targets| ensures !Failing(report.targets[i]) {
      assert Reported(RootAt(start, targets[i].key), targets[i], actions[i], skills, mode, attempts(i),
                      report.targets[i]);
    }
  }

  /** The treatment of the targets is determined by the machine. */
  lemma ChoicesAgree<T>(
    roots: map<Key, Root<T>>, targets: seq<Target>, a: seq<Action>, b: seq<Action>, n: nat)
    requires AllChosen(roots, targets, a) && AllChosen(roots, targets, b) && n <= |a| == |b|
    ensures a[..n] == b[..n]
  {
    if n == 0 {
    } else {
      var i := n - 1;
      ChoicesAgree(roots, targets, a, b, i);
      assert forall j :: 0 <= j < i ==> a[..i][j] == b[..i][j];
      assert forall j :: Aliases(targets, a, i, j) <==> Aliases(targets, b, i, j);
      assert Chosen(roots, targets, a, i) && Chosen(roots, targets, b, i);
      if a[i].Covered? {
        var j :| Aliases(targets, a, i, j) && a[i].owner == targets[j].name;
        var k :| Aliases(targets, b, i, k) && b[i].owner == targets[k].name;
        assert a[k].Active?;
        if j < k {
          ActiveKeysDiffer(roots, targets, a, k, j);
        } else if k < j {
          ActiveKeysDiffer(roots, targets, a, j, k);
        }
      }
    }
  }

  /** The part of a run for one active target. */
  method VisitTarget<T>(
    machine: Machine<T>, target: Target, skills: seq<Skill<T>>, mode: Mode, attempts: int -> Attempt<T>)
    returns (r: TargetResult)
    requires DistinctNames(skills) && !RootAt(machine.roots, target.key).NotDirectory?
    modifies machine
    ensures OnlyAt(old(machine.roots), machine.roots, target.key, skills)
    ensures ActiveReported(RootAt(old(machine.roots), target.key), target, skills, mode, attempts, r)
    ensures !mode.Install? ==> machine.roots == old(machine.roots)
    ensures !Failing(r) && !mode.DryRun? && (mode.Install? ==> skills != []) ==>
            KeyGood(machine.roots, target.key, skills)
    ensures KeyGood(old(machine.roots), target.key, skills) && (forall i :: !attempts(i).readFails) ==>
              machine.roots == old(machine.roots)
  {
    if mode.VerifyOnly? && RootAt(machine.roots, target.key).NoRoot? {
      return TargetResult(target.name, MissingTarget, []);
    }
    var statuses, error := machine.SyncTarget(target.key, skills, mode, attempts);
    var status :=
      if error.Some? then Error
      else if Missing in statuses || Drift in statuses then FailedVerification
      else if mode.DryRun? && (WouldInstall in statuses || WouldUpdate in statuses) then ChangesPlanned
      else Okay;
    return TargetResult(target.name, status, statuses);
  }

  /** The loop over the prepared targets. */
  method VisitAll<T>(
    machine: Machine<T>, safe: Key -> bool, targets: seq<Target>, actions: seq<Action>, skills: seq<Skill<T>>,
    mode: Mode, attempts: int -> int -> Attempt<T>)
    returns (report: Report)
    requires DistinctNames(skills) && |actions| == |targets|
    requires AllChosen(machine.roots, targets, actions) && AllFit(machine.roots, safe, targets)
    modifies machine
    ensures OnlySkills(old(machine.roots), machine.roots, targets, skills)
    ensures Untouched(old(machine.roots), machine.roots, targets, actions, |targets|)
    ensures RunReported(old(machine.roots), targets, actions, skills, mode, attempts, report)
    ensures !mode.Install? ==> machine.roots == old(machine.roots)
    ensures report.success && !mode.DryRun? && (mode.Install? ==> skills != []) ==>
              ActiveGood(machine.roots, targets, actions, skills, |targets|)
    ensures Converged(old(machine.roots), targets, skills) && (forall i, j :: !attempts(i)(j).readFails) ==>
              machine.roots == old(machine.roots)
  {
    ghost var start := machine.roots;
    ghost var converged := Converged(start, targets, skills) && forall i, j :: !attempts(i)(j).readFails;
    report := Report(true, []);
    for i := 0 to |targets|
      invariant OnlySkills(start, machine.roots, targets, skills) &&
                Untouched(start, machine.roots, targets, actions, i)
      invariant !mode.Install? || converged ==> machine.roots == start
      invariant |report.targets| == i && (report.success <==> NoneFailing(report.targets))
      invariant ReportedTo(start, targets, actions, skills, mode, attempts, report.targets)
      invariant report.success && !mode.DryRun? && (mode.Install? ==> skills != []) ==>
                  ActiveGood(machine.roots, targets, actions, skills, i)
    {
      var target := targets[i];
      UntouchedMore(start, machine.roots, targets, actions, i);
      var result: TargetResult;
      match actions[i] {
        case Covered(owner) => result := TargetResult(target.name, CoveredBy(owner), []);
        case SkippedAbsent => result := TargetResult(target.name, Skipped, []);
        case Active =>
          NotYetTouched(start, machine.roots, safe, targets, actions, i);
          if converged { ConvergedActive(start, targets, actions, skills, i); }
          ghost var before := machine.roots;
          result := VisitTarget(machine, target, skills, mode, attempts(i));
          TouchActive(start, before, machine.roots, targets, actions, skills, i);
      }
      ReportedSnoc(start, targets, actions, skills, mode, attempts, report.targets, result);
      report := Report(report.success && !Failing(result), report.targets + [result]);
    }
  }

  method RunInstall<T>(
    machine: Machine<T>, safe: Key -> bool, targets: seq<Target>, skills: seq<Skill<T>>, mode: Mode,
    attempts: int -> int -> Attempt<T>)
    returns (r: Result<Report, InstallError>, ghost actions: seq<Action>)
    requires DistinctNames(skills)
    modifies machine
    ensures OnlySkills(old(machine.roots), machine.roots, targets, skills)
    ensures !mode.Install? || r.Err? ==> machine.roots == old(machine.roots)
    ensures r.Ok? <==>
              AllFit(old(machine.roots), safe, targets) &&
              forall i :: 0 <= i < |targets| ==> SkillsFit(RootAt(old(machine.roots), targets[i].key), skills)
    ensures r.Ok? ==> RunReported(old(machine.roots), targets, actions, skills, mode, attempts, r.value)
    ensures mode.Install? && skills != [] && r.Ok? && r.value.success ==> Converged(machine.roots, targets, skills)
    ensures mode.VerifyOnly? && r.Ok? && r.value.success ==> Converged(machine.roots, targets, skills)
    ensures Converged(old(machine.roots), targets, skills) && (forall i, j :: !attempts(i)(j).readFails) &&
            (forall i :: 0 <= i < |targets| ==> safe(targets[i].key)) ==>
              machine.roots == old(machine.roots) && r.Ok? && r.value.success &&
              forall i :: 0 <= i < |targets| && actions[i].Active? ==>
                (mode.VerifyOnly? ==> AllListed(r.value.targets[i], |skills|, Verified)) &&
                (!mode.VerifyOnly? ==> AllListed(r.value.targets[i], |skills|, Unchanged))
  {
    ghost var start := machine.roots;
    ghost var converged := Converged(start, targets, skills) && forall i, j :: !attempts(i)(j).readFails;
    var preflight := PreflightInstall(machine.roots, safe, targets, skills);
    if converged && forall i :: 0 <= i < |targets| ==> safe(targets[i].key) {
      ConvergedFits(start, safe, targets, skills);
    }
    if preflight.Err? { return Err(preflight.error), []; }
    actions := preflight.value;
    var report := VisitAll(machine, safe, targets, preflight.value, skills, mode, attempts);
    if report.success && !mode.DryRun? && (mode.Install? ==> skills != []) {
      AllActiveGoodConverges(start, machine.roots, safe, targets, actions, skills);
    }
    if converged { ConvergedReport(start, targets, actions, skills, mode, attempts, report); }
    return Ok(report), actions;
  }

  /**
   `settled` is the machine after the install, `checked` after the verify-only run, which never writes.
   A successful install has converged: a verify-only run then reports every skill of every active target
   verified, a second install reports every one unchanged, and neither changes anything.
   */
  method InstallThenRepeat<T>(
    machine: Machine<T>, safe: Key -> bool, targets: seq<Target>, skills: seq<Skill<T>>,
    first: int -> int -> Attempt<T>, later: int -> int -> Attempt<T>)
    returns (installed: Result<Report, InstallError>, verified: Result<Report, InstallError>,
             again: Result<Report, InstallError>, ghost settled: map<Key, Root<T>>,
             ghost checked: map<Key, Root<T>>, ghost chosen: seq<Action>, ghost actions: seq<Action>)
    requires DistinctNames(skills) && skills != []
    requires (forall i, j :: !later(i)(j).readFails) && forall i :: 0 <= i < |targets| ==> safe(targets[i].key)
    modifies machine
    ensures OnlySkills(old(machine.roots), settled, targets, skills)
    ensures installed.Err? ==> settled == old(machine.roots)
    ensures checked == settled
    ensures installed.Ok? ==> RunReported(old(machine.roots), targets, chosen, skills, Install, first, installed.value)
    ensures installed.Ok? && installed.value.success ==>
              machine.roots == checked && Converged(settled, targets, skills) &&
              verified.Ok? && verified.value.success && again.Ok? && again.value.success &&
              RunReported(settled, targets, actions, skills, VerifyOnly, later, verified.value) &&
              RunReported(settled, targets, actions, skills, Install, later, again.value) &&
              forall i :: 0 <= i < |targets| && actions[i].Active? ==>
                AllListed(verified.value.targets[i], |skills|, Verified) &&
                AllListed(again.value.targets[i], |skills|, Unchanged)
  {
    ghost var others;
    installed, chosen := RunInstall(machine, safe, targets, skills, Install, first);
    settled := machine.roots;
    verified, actions := RunInstall(machine, safe, targets, skills, VerifyOnly, later);
    checked := machine.roots;
    again, others := RunInstall(machine, safe, targets, skills, Install, later);
    if installed.Ok? && installed.value.success {
      ChoicesAgree(settled, targets, actions, others, |targets|);
      assert actions == actions[..|targets|] == others[..|targets|] == others;
    }
  }
}
