/**
  Workshop post-install steps: copying and linking a mod's files to their targets, the readiness
  check, and the cleanup, over one file tree.

  Paths are lists of components below the install directory. The templates of one mod are already
  rendered: a source is a fixed path or a glob, a target is a function of the source's name. A link
  leads to a path of the tree in one step, or out of the install directory.
 */
module PostInstall {
  import opened Wrappers

  type Path = seq<string>

  datatype Node = File(content: string) | Dir | Link(dest: Path) | LinkOut

  type Tree = map<Path, Node>

  datatype Operation = Copy | Symlink

  datatype Source = Fixed(path: Path) | Glob(matches: Path -> bool)

  /** A target template: with the source's name in it, or without. */
  datatype Target = Plain(path: Path) | ByName(place: string -> Path)

  /** One post-install action of a checked blueprint: a glob source comes with a target by name. */
  datatype Action = Action(operation: Operation, source: Source, target: Target, required: bool)

  datatype Failure = NoSource | LeavesInstallDir | NotAFile | TargetExists | Raised

  /** The order in which the file system lists a set of paths. */
  type Listing = set<Path> -> seq<Path>

  ghost predicate Lists(listing: Listing) {
    forall s :: (forall p :: p in listing(s) <==>
        p in s) && forall i, j | 0 <= i < j < |listing(s)| :: listing(s)[i] != listing(s)[j]
  }

  // ---------------------------------------------------------------- the file system

  predicate IsLink(tree: Tree, p: Path) {
    p in tree && (tree[p].Link? || tree[p].LinkOut?)
  }

  /** `resolve()`; `None` is a place outside the install directory. */
  function Resolve(tree: Tree, p: Path): Option<Path> {
    if p !in tree then Some(p)
    else match tree[p] case Link(dest) => Some(dest) case LinkOut => None case _ => Some(p)
  }

  /** `exists()`: a link counts when its destination is there. */
  predicate Exists(tree: Tree, p: Path) {
    p == [] || (p in tree && (tree[p].Link? ==> tree[p].dest == [] || tree[p].dest in tree))
  }

  predicate ProperPrefix(q: Path, p: Path) {
    |q| < |p| && p[..|q|] == q
  }

  predicate Under(root: Path, p: Path) {
    p == root || ProperPrefix(root, p)
  }

  /** The directories above `p`, without the install directory itself. */
  function Parents(p: Path): (r: set<Path>)
    ensures forall q :: q in r <==> q != [] && ProperPrefix(q, p)
  {
    set k | 0 < k < |p| :: p[..k]
  }

  /** `mkdir(parents=True, exist_ok=True)` for the directory of `p`; `None` when something else is in the way. */
  function MakeParents(tree: Tree, p: Path): Option<Tree> {
    if exists q | q in Parents(p) :: q in tree && !tree[q].Dir? then None
    else Some(map q | q in tree.Keys + Parents(p) :: if q in tree then tree[q] else Dir)
  }

  predicate IsDir(tree: Tree, p: Path) {
    p in tree && tree[p].Dir?
  }

  /** Everything above the path is a directory. */
  predicate Rooted(tree: Tree, p: Path) {
    forall q | q in Parents(p) :: IsDir(tree, q)
  }

  function NameOf(p: Path): string {
    if p == [] then "" else p[|p| - 1]
  }

  /** `_resolve_workshop_sources` */
  function Sources(tree: Tree, source: Source, listing: Listing): seq<Option<Path>> {
    match source
    case Fixed(p) => if Exists(tree, p) then [Resolve(tree, p)] else []
    case Glob(matches) => ResolveAll(tree, listing(set p | p in tree && matches(p)))
  }

  function ResolveAll(tree: Tree, ps: seq<Path>): (r: seq<Option<Path>>)
    ensures |r| == |ps| && forall i | 0 <= i < |r| :: r[i] == Resolve(tree, ps[i])
  {
    seq(|ps|, i requires 0 <= i < |ps| => Resolve(tree, ps[i]))
  }

  // ---------------------------------------------------------------- running the actions

  /** A directory as target receives the file under its own name. */
  function CopyTarget(tree: Tree, source: Path, t: Path): Path {
    if t == [] || IsDir(tree, t) then t + [NameOf(source)] else t
  }

  /** `shutil.copy2`: links are written through. */
  function CopyFile(tree: Tree, source: Path, t: Path): Result<Tree, Failure> {
    if source !in tree || !tree[source].File? then Err(NotAFile)
    else
      match Resolve(tree, CopyTarget(tree, source, t))
      case None => Ok(tree)
      case Some(place) =>
        if place == source || place == [] || (place in tree && !tree[place].File?) then Err(Raised)
        else if !Rooted(tree, place) then Err(Raised)
        else Ok(tree[place := tree[source]])
  }

  /** An existing link is replaced, anything else in the way is an error. */
  function MakeLink(tree: Tree, source: Path, target: Path): Result<Tree, Failure> {
    if !IsLink(tree, target) && Exists(tree, target) then Err(TargetExists) else Ok(tree[target := Link(source)])
  }

  /** One source of one action with its rendered target. */
  datatype Step = Step(operation: Operation, source: Option<Path>, target: Path)

  function Apply(tree: Tree, step: Step): Result<Tree, Failure> {
    var t := Resolve(tree, step.target);
    if step.source.None? || t.None? then Err(LeavesInstallDir)
    else
      match MakeParents(tree, t.value)
      case None => Err(Raised)
      case Some(made) =>
        if step.operation.Copy? then CopyFile(made, step.source.value, t.value)
        else MakeLink(made, step.source.value, step.target)
  }

  function TargetOf(a: Action, source: Option<Path>): Path {
    match a.target
    case Plain(path) => path
    case ByName(place) => place(if source.Some? then NameOf(source.value) else "")
  }

  function StepsOf(a: Action, sources: seq<Option<Path>>): (r: seq<Step>)
    ensures |r| == |sources|
    ensures forall i | 0 <= i < |r| :: r[i] == Step(a.operation, sources[i], TargetOf(a, sources[i]))
  {
    seq(|sources|, i requires 0 <= i < |sources| => Step(a.operation, sources[i], TargetOf(a, sources[i])))
  }

  function ApplyAll(tree: Tree, steps: seq<Step>): Result<Tree, Failure>
    decreases |steps|
  {
    if steps == [] then Ok(tree)
    else
      match Apply(tree, steps[0])
      case Err(e) => Err(e)
      case Ok(next) => ApplyAll(next, steps[1..])
  }

  /** `_run_workshop_post_install_actions`: every action looks up its sources when its turn comes. */
  function RunActions(tree: Tree, actions: seq<Action>, listing: Listing): Result<Tree, Failure>
    decreases |actions|
  {
    if actions == [] then Ok(tree)
    else
      var sources := Sources(tree, actions[0].source, listing);
      if actions[0].required && sources == [] then Err(NoSource)
      else
        match ApplyAll(tree, StepsOf(actions[0], sources))
        case Err(e) => Err(e)
        case Ok(next) => RunActions(next, actions[1..], listing)
  }

  predicate There(tree: Tree, target: Path) {
    Exists(tree, target) || IsLink(tree, target)
  }

  predicate ReadyFor(tree: Tree, a: Action, listing: Listing) {
    var sources := Sources(tree, a.source, listing);
    (a.required ==> sources != []) && forall i | 0 <= i < |sources| :: There(tree, TargetOf(a, sources[i]))
  }

  /** `workshop_runtime_targets_ready` */
  predicate Ready(tree: Tree, actions: seq<Action>, listing: Listing) {
    forall i | 0 <= i < |actions| :: ReadyFor(tree, actions[i], listing)
  }

  // ---------------------------------------------------------------- cleanup

  /** `_safe_remove`: a file or link by itself, a directory with everything below it. */
  function Remove(tree: Tree, p: Path): Tree {
    if p == [] || (p in tree && tree[p].Dir?) then map q | q in tree && !Under(p, q) :: tree[q]
    else tree - {p}
  }

  /** The targets the cleanup looks at for one action. */
  function CleanupTargets(tree: Tree, a: Action, listing: Listing): seq<Path> {
    match a.target
    case Plain(path) => [path]
    case ByName(_) =>
      var steps := StepsOf(a, Sources(tree, a.source, listing));
      seq(|steps|, i requires 0 <= i < |steps| => steps[i].target)
  }

  function RemoveAll(tree: Tree, ps: seq<Path>): Tree
    decreases |ps|
  {
    if ps == [] then tree else RemoveAll(Remove(tree, ps[0]), ps[1..])
  }

  function CleanActions(tree: Tree, actions: seq<Action>, listing: Listing): Tree
    decreases |actions|
  {
    if actions == [] then tree
    else CleanActions(RemoveAll(tree, CleanupTargets(tree, actions[0], listing)), actions[1..], listing)
  }

  /** `cleanup_mod`: the targets first, while the sources are still there, then the two cache folders. */
  function Cleanup(tree: Tree, actions: seq<Action>, listing: Listing, content: Path, downloads: Path): Tree {
    Remove(Remove(CleanActions(tree, actions, listing), content), downloads)
  }

  // ---------------------------------------------------------------- what one step does

  /** Everything above a path of the tree is a directory; the install directory itself is not listed. */
  ghost predicate Regular(tree: Tree) {
    [] !in tree && forall p, q | p in tree && q in Parents(p) :: q in tree && tree[q].Dir?
  }

  ghost predicate Above(q: Path, reaches: set<Path>) {
    q != [] && exists r :: r in reaches && ProperPrefix(q, r)
  }

  /**
    From `tree` to `after` nothing goes away, only `places` change, and all that is new beside them
    are the directories above `reaches`.
   */
  ghost predicate Extends(tree: Tree, after: Tree, places: set<Path>, reaches: set<Path>) {
    && (forall p | p in tree :: p in after && (p !in places || tree[p].Dir? ==> after[p] == tree[p]))
    && (forall p | p in after && p !in tree && p !in places :: after[p].Dir?)
    && (forall p | IsDir(after, p) && !IsDir(tree, p) :: p !in tree && Above(p, reaches))
    && (forall r | r in reaches :: Rooted(after, r))
  }

  /** The destination a step begins with: the target, or where a link at the target leads. */
  function Reach(tree: Tree, step: Step): Path {
    var t := Resolve(tree, step.target);
    if t.Some? then t.value else step.target
  }

  /** Where a copy writes to, links not followed. */
  function CopyName(tree: Tree, step: Step): Path {
    CopyTarget(tree, if step.source.Some? then step.source.value else [], Reach(tree, step))
  }

  /** The path a step changes; none when it writes out of the install directory. */
  function Place(tree: Tree, step: Step): Option<Path> {
    match step.operation
    case Copy => Resolve(tree, CopyName(tree, step))
    case Symlink => Some(step.target)
  }

  function PlaceSet(tree: Tree, step: Step): set<Path> {
    var p := Place(tree, step);
    if p.Some? then {p.value} else {}
  }

  /** The paths a step looks at to find its place. */
  function Route(tree: Tree, step: Step): set<Path> {
    match step.operation
    case Copy =>
      {step.target, Reach(tree, step), CopyName(tree, step)} + PlaceSet(tree, step)
      + if step.source.Some? then {step.source.value} else {}
    case Symlink => {step.target}
  }

  /** What is at these paths is not changed by writing to `places` and making directories above `reaches`. */
  ghost predicate Undisturbed(tree: Tree, route: set<Path>, places: set<Path>, reaches: set<Path>) {
    forall q | q in route :: q !in places && (q !in tree ==> !Above(q, reaches))
  }

  ghost predicate SameAt(tree: Tree, after: Tree, q: Path) {
    (q in after <==> q in tree) && (q in tree ==> after[q] == tree[q])
  }

  lemma UndisturbedSame(tree: Tree, after: Tree, route: set<Path>, places: set<Path>, reaches: set<Path>, q: Path)
    requires Extends(tree, after, places, reaches) && Undisturbed(tree, route, places, reaches) && q in route
    ensures SameAt(tree, after, q)
  {
  }

  /** The step has done its work. */
  predicate Done(tree: Tree, step: Step) {
    && step.source.Some?
    && match step.operation
       case Copy =>
         var s, r, p := step.source.value, Resolve(tree, step.target), Place(tree, step);
         && s in tree && tree[s].File?
         && r.Some? && (r.value == [] || r.value in tree)
         && (p.Some? ==> p.value != [] && p.value != s && p.value in tree && tree[p.value] == tree[s])
       case Symlink => step.target in tree && tree[step.target] == Link(step.source.value)
  }

  lemma MadeParents(tree: Tree, t: Path, made: Tree)
    requires Regular(tree) && MakeParents(tree, t) == Some(made)
    ensures Regular(made) && Extends(tree, made, {}, {t})
    ensures forall p | p !in Parents(t) :: SameAt(tree, made, p)
  {
    forall p, q | p in made && q in Parents(p) ensures q in made && made[q].Dir? {
      if p !in tree {
        assert ProperPrefix(q, t);
      }
    }
    assert t in {t};
  }

  lemma ParentsThere(tree: Tree, p: Path)
    requires Rooted(tree, p)
    ensures MakeParents(tree, p) == Some(tree)
  {
    assert forall q | q in Parents(p) :: IsDir(tree, q);
    var r := MakeParents(tree, p);
    assert r.Some? && r.value == tree;
  }

  lemma RegularRooted(tree: Tree, p: Path)
    requires Regular(tree) && (p == [] || p in tree)
    ensures Rooted(tree, p)
  {
  }

  lemma PutAt(tree: Tree, p: Path, node: Node)
    requires Regular(tree) && p != [] && !IsDir(tree, p) && !node.Dir? && Rooted(tree, p)
    ensures Regular(tree[p := node]) && Extends(tree, tree[p := node], {p}, {})
  {
    var after := tree[p := node];
    forall p', q | p' in after && q in Parents(p') ensures q in after && after[q].Dir? {
      assert IsDir(tree, q);
    }
  }

  lemma ExtendsTrans(a: Tree, b: Tree, c: Tree, p: set<Path>, q: set<Path>, r: set<Path>, s: set<Path>)
    requires Extends(a, b, p, r) && Extends(b, c, q, s)
    ensures Extends(a, c, p + q, r + s)
  {
    forall x | IsDir(c, x) && !IsDir(a, x) ensures x !in a && Above(x, r + s) {
      if IsDir(b, x) {
        assert Above(x, r);
      } else {
        assert Above(x, s);
      }
    }
    forall x | x in r ensures Rooted(c, x) {
      assert forall y | y in Parents(x) :: IsDir(b, y);
    }
  }

  /** Writing the content at its place leaves the way there as it was. */
  lemma CopyDone(tree: Tree, made: Tree, step: Step, p: Path)
    requires step.operation.Copy? && step.source.Some? && Resolve(tree, step.target).Some?
    requires forall q | q in tree || q !in Parents(Reach(tree, step)) :: SameAt(tree, made, q)
    requires Resolve(made, CopyTarget(made, step.source.value, Reach(tree, step))) == Some(p)
    requires var s := step.source.value;
             s in made && made[s].File? && p != [] && p != s && (p in made ==> made[p].File?)
    ensures Place(tree, step) == Some(p)
    ensures var next := made[p := made[step.source.value]];
            Place(next, step) == Some(p) && Route(next, step) == Route(tree, step) && Done(next, step)
  {
    var t := Reach(tree, step);
    var next := made[p := made[step.source.value]];
    assert SameAt(tree, made, t) && SameAt(tree, made, CopyName(tree, step)) && SameAt(tree, made, step.target);
    assert CopyTarget(made, step.source.value, t) == CopyName(tree, step);
    assert Resolve(next, step.target) == Some(t);
    assert CopyName(next, step) == CopyName(tree, step);
  }

  lemma CopyOutside(tree: Tree, made: Tree, step: Step)
    requires step.operation.Copy? && step.source.Some? && Resolve(tree, step.target).Some?
    requires forall q | q in tree || q !in Parents(Reach(tree, step)) :: SameAt(tree, made, q)
    requires Resolve(made, CopyTarget(made, step.source.value, Reach(tree, step))) == None
    requires var s := step.source.value; s in made && made[s].File?
    ensures Place(tree, step) == None && Place(made, step) == None && Route(made, step) == Route(tree, step)
    ensures Done(made, step)
  {
    var t := Reach(tree, step);
    assert SameAt(tree, made, t) && SameAt(tree, made, CopyName(tree, step)) && SameAt(tree, made, step.target);
    assert CopyTarget(made, step.source.value, t) == CopyName(tree, step);
  }

  /** A step that works does its job, keeps the tree regular and touches nothing but its place. */
  lemma CopyEffect(tree: Tree, step: Step, next: Tree)
    requires Regular(tree) && step.operation.Copy? && Apply(tree, step) == Ok(next)
    ensures Done(next, step) && Regular(next) && Route(next, step) == Route(tree, step)
    ensures Extends(tree, next, PlaceSet(tree, step), {Reach(tree, step)})
  {
    var t, s := Reach(tree, step), step.source.value;
    var made := MakeParents(tree, t).value;
    MadeParents(tree, t, made);
    assert CopyFile(made, s, t) == Ok(next);
    var place := Resolve(made, CopyTarget(made, s, t));
    if place.None? {
      CopyOutside(tree, made, step);
    } else {
      var p := place.value;
      CopyDone(tree, made, step, p);
      PutAt(made, p, made[s]);
      ExtendsTrans(tree, made, next, {}, {p}, {t}, {});
      assert {} + {p} == PlaceSet(tree, step) && {t} + {} == {t};
    }
  }

  lemma LinkEffect(tree: Tree, step: Step, next: Tree)
    requires Regular(tree) && step.operation.Symlink? && Apply(tree, step) == Ok(next)
    ensures Done(next, step) && Regular(next) && Route(next, step) == Route(tree, step)
    ensures Extends(tree, next, PlaceSet(tree, step), {Reach(tree, step)})
  {
    var t, target := Reach(tree, step), step.target;
    var made := MakeParents(tree, t).value;
    MadeParents(tree, t, made);
    assert next == made[target := Link(step.source.value)];
    if target in tree {
      RegularRooted(made, target);
    } else {
      assert t == target;
    }
    PutAt(made, target, Link(step.source.value));
    ExtendsTrans(tree, made, next, {}, {target}, {t}, {});
    assert {} + {target} == PlaceSet(tree, step) && {t} + {} == {t};
  }

  lemma StepEffect(tree: Tree, step: Step, next: Tree)
    requires Regular(tree) && Apply(tree, step) == Ok(next)
    ensures Done(next, step) && Regular(next) && Route(next, step) == Route(tree, step)
    ensures Extends(tree, next, PlaceSet(tree, step), {Reach(tree, step)})
  {
    if step.operation.Copy? {
      CopyEffect(tree, step, next);
    } else {
      LinkEffect(tree, step, next);
    }
  }

  /** The tree with all directories above the path. */
  function WithDirs(tree: Tree, t: Path): Tree {
    map q | q in tree.Keys + Parents(t) :: if q in tree then tree[q] else Dir
  }

  /** Nothing but directories stands above the path. */
  predicate WayIsFree(tree: Tree, t: Path) {
    forall q | q in Parents(t) && q in tree :: tree[q].Dir?
  }

  lemma MakeParentsIff(tree: Tree, t: Path)
    ensures MakeParents(tree, t) == if WayIsFree(tree, t) then Some(WithDirs(tree, t)) else None
  {
  }

  /**
    A link step works exactly when its source lies in the install directory, only directories stand above
    its target, and there is nothing at the target but perhaps an old link. A file in its place is an error.
   */
  lemma LinkWorksIff(tree: Tree, step: Step)
    requires Regular(tree) && step.operation.Symlink?
    ensures Apply(tree, step).Ok? <==>
            && step.source.Some? && Resolve(tree, step.target).Some? && WayIsFree(tree, Reach(tree, step))
            && step.target != [] && (step.target in tree ==> tree[step.target].Link?)
    ensures step.source.Some? && step.target in tree && tree[step.target].File? && WayIsFree(tree, step.target) ==>
              Apply(tree, step) == Err(TargetExists)
  {
    MakeParentsIff(tree, Reach(tree, step));
  }

  /**
    A copy step works exactly when its source is a file, only directories stand above its target, and the
    place it comes to has its directory and holds nothing, or another file.
   */
  lemma CopyWorksIff(tree: Tree, step: Step)
    requires Regular(tree) && step.operation.Copy?
    ensures Apply(tree, step).Ok? <==>
            && step.source.Some? && Resolve(tree, step.target).Some? && WayIsFree(tree, Reach(tree, step))
            && step.source.value in tree && tree[step.source.value].File?
            && var made, place := WithDirs(tree, Reach(tree, step)), Place(tree, step);
               place.Some? ==>
                 && place.value != [] && place.value != step.source.value
                 && (place.value in made ==> made[place.value].File?)
                 && forall q | q in Parents(place.value) :: q in made && made[q].Dir?
  {
    var t := Reach(tree, step);
    MakeParentsIff(tree, t);
    if step.source.Some? && Resolve(tree, step.target).Some? && WayIsFree(tree, t) {
      SamePlace(tree, step);
    }
  }

  /** Making the directories does not change where the copy goes. */
  lemma SamePlace(tree: Tree, step: Step)
    requires Regular(tree) && step.operation.Copy? && step.source.Some? && Resolve(tree, step.target).Some?
    requires WayIsFree(tree, Reach(tree, step))
    ensures var t, made := Reach(tree, step), WithDirs(tree, Reach(tree, step));
            Resolve(made, CopyTarget(made, step.source.value, t)) == Place(tree, step)
  {
    var t, made := Reach(tree, step), WithDirs(tree, Reach(tree, step));
    assert t !in Parents(t) && t + [NameOf(step.source.value)] !in Parents(t);
    assert CopyTarget(made, step.source.value, t) == CopyName(tree, step);
  }

  /** A link step that is done changes nothing exactly when the directories above its source are there. */
  predicate Steady(tree: Tree, step: Step) {
    step.operation.Symlink? && step.source.Some? ==> Rooted(tree, step.source.value)
  }

  lemma CopyAgain(tree: Tree, step: Step)
    requires Regular(tree) && step.operation.Copy? && Done(tree, step)
    ensures Apply(tree, step) == Ok(tree)
  {
    var t := Reach(tree, step);
    RegularRooted(tree, t);
    ParentsThere(tree, t);
    var p := Place(tree, step);
    if p.Some? {
      RegularRooted(tree, p.value);
      assert tree[p.value := tree[step.source.value]] == tree;
    }
  }

  lemma LinkAgain(tree: Tree, step: Step)
    requires step.operation.Symlink? && Done(tree, step)
    ensures Rooted(tree, step.source.value) ==> Apply(tree, step) == Ok(tree)
    ensures !Rooted(tree, step.source.value) ==>
              Apply(tree, step).Err? || exists q :: q in Apply(tree, step).value && q !in tree
  {
    var t, s := step.target, step.source.value;
    if Rooted(tree, s) {
      ParentsThere(tree, s);
      assert tree[t := Link(s)] == tree;
    } else if Apply(tree, step).Ok? {
      var q :| q in Parents(s) && !IsDir(tree, q);
      assert q !in tree && q in Apply(tree, step).value;
    }
  }

  /** A done step leaves the tree as it is exactly when it is steady; otherwise it fails or makes something new. */
  lemma DoneAgain(tree: Tree, step: Step)
    requires Regular(tree) && Done(tree, step)
    ensures Apply(tree, step) == Ok(tree) <==> Steady(tree, step)
    ensures !Steady(tree, step) ==> Apply(tree, step).Err? || exists q :: q in Apply(tree, step).value && q !in tree
  {
    if step.operation.Copy? {
      CopyAgain(tree, step);
    } else {
      LinkAgain(tree, step);
    }
  }

  // ---------------------------------------------------------------- a run of steps

  function Places(tree: Tree, steps: seq<Step>): set<Path> {
    if steps == [] then {} else PlaceSet(tree, steps[0]) + Places(tree, steps[1..])
  }

  function Reaches(tree: Tree, steps: seq<Step>): set<Path> {
    if steps == [] then {} else {Reach(tree, steps[0])} + Reaches(tree, steps[1..])
  }

  /** No step disturbs the way of another one to its place. */
  ghost predicate Plannable(tree: Tree, steps: seq<Step>) {
    forall i, j | 0 <= i < |steps| && 0 <= j < |steps| && i != j ::
      Undisturbed(tree, Route(tree, steps[i]), PlaceSet(tree, steps[j]), {Reach(tree, steps[j])})
  }

  lemma {:induction false} PlacesConcat(tree: Tree, head: seq<Step>, rest: seq<Step>)
    ensures Places(tree, head + rest) == Places(tree, head) + Places(tree, rest)
    ensures Reaches(tree, head + rest) == Reaches(tree, head) + Reaches(tree, rest)
  {
    if head == [] {
      assert head + rest == rest;
    } else {
      PlacesConcat(tree, head[1..], rest);
      assert (head + rest)[1..] == head[1..] + rest && (head + rest)[0] == head[0];
    }
  }

  lemma UndisturbedUnion(tree: Tree, route: set<Path>, p: set<Path>, q: set<Path>, r: set<Path>, s: set<Path>)
    requires Undisturbed(tree, route, p, r) && Undisturbed(tree, route, q, s)
    ensures Undisturbed(tree, route, p + q, r + s)
  {
    forall x | Above(x, r + s) ensures Above(x, r) || Above(x, s) {
      var y :| y in r + s && ProperPrefix(x, y);
      assert y in r || y in s;
    }
  }

  lemma {:induction false} UndisturbedByAll(tree: Tree, route: set<Path>, steps: seq<Step>)
    requires forall j | 0 <= j < |steps| :: Undisturbed(tree, route, PlaceSet(tree, steps[j]), {Reach(tree, steps[j])})
    ensures Undisturbed(tree, route, Places(tree, steps), Reaches(tree, steps))
  {
    if steps == [] {
    } else {
      UndisturbedByAll(tree, route, steps[1..]);
      var rest := steps[1..];
      var places, reach := PlaceSet(tree, steps[0]), {Reach(tree, steps[0])};
      UndisturbedUnion(tree, route, places, Places(tree, rest), reach, Reaches(tree, rest));
    }
  }

  /** An undisturbed step finds the same place, and what it has done stays done. */
  lemma RouteKept(tree: Tree, after: Tree, places: set<Path>, reaches: set<Path>, step: Step)
    requires Extends(tree, after, places, reaches) && Undisturbed(tree, Route(tree, step), places, reaches)
    ensures Route(after, step) == Route(tree, step) && Place(after, step) == Place(tree, step)
    ensures Reach(after, step) == Reach(tree, step)
    ensures Done(tree, step) ==> Done(after, step)
  {
    forall q | q in Route(tree, step) ensures SameAt(tree, after, q) {
      UndisturbedSame(tree, after, Route(tree, step), places, reaches, q);
    }
    assert SameAt(tree, after, step.target);
    if step.operation.Copy? {
      assert SameAt(tree, after, Reach(tree, step)) && SameAt(tree, after, CopyName(tree, step));
      assert Place(tree, step).Some? ==> SameAt(tree, after, Place(tree, step).value);
      assert step.source.Some? ==> SameAt(tree, after, step.source.value);
      assert Reach(after, step) == Reach(tree, step);
      assert CopyName(after, step) == CopyName(tree, step);
    }
  }

  lemma UndisturbedLater(tree: Tree, after: Tree, route: set<Path>, places: set<Path>, reaches: set<Path>)
    requires (forall p | p in tree :: p in after) && Undisturbed(tree, route, places, reaches)
    ensures Undisturbed(after, route, places, reaches)
  {
  }

  /** What a run of some of the steps leaves of the plan for the others. */
  lemma PlanKept(tree: Tree, after: Tree, head: seq<Step>, rest: seq<Step>)
    requires Plannable(tree, head + rest) && Extends(tree, after, Places(tree, head), Reaches(tree, head))
    ensures Plannable(after, rest)
    ensures Places(after, rest) == Places(tree, rest) && Reaches(after, rest) == Reaches(tree, rest)
  {
    var all := head + rest;
    forall j | 0 <= j < |rest|
      ensures Route(after, rest[j]) == Route(tree, rest[j]) && Place(after, rest[j]) == Place(tree, rest[j])
      ensures Reach(after, rest[j]) == Reach(tree, rest[j])
    {
      assert all[|head| + j] == rest[j];
      forall i | 0 <= i < |head|
        ensures Undisturbed(tree, Route(tree, rest[j]), PlaceSet(tree, head[i]), {Reach(tree, head[i])})
      {
        assert all[i] == head[i];
      }
      UndisturbedByAll(tree, Route(tree, rest[j]), head);
      RouteKept(tree, after, Places(tree, head), Reaches(tree, head), rest[j]);
    }
    forall i, j | 0 <= i < |rest| && 0 <= j < |rest| && i != j
      ensures Undisturbed(after, Route(after, rest[i]), PlaceSet(after, rest[j]), {Reach(after, rest[j])})
    {
      assert all[|head| + i] == rest[i] && all[|head| + j] == rest[j];
      UndisturbedLater(tree, after, Route(tree, rest[i]), PlaceSet(tree, rest[j]), {Reach(tree, rest[j])});
    }
    SamePlaces(tree, after, rest);
  }

  lemma {:induction false} SamePlaces(tree: Tree, after: Tree, steps: seq<Step>)
    requires forall j | 0 <= j < |steps| ::
               Place(after, steps[j]) == Place(tree, steps[j]) && Reach(after, steps[j]) == Reach(tree, steps[j])
    ensures Places(after, steps) == Places(tree, steps) && Reaches(after, steps) == Reaches(tree, steps)
  {
    if steps != [] {
      SamePlaces(tree, after, steps[1..]);
    }
  }

  /** The first step stays done while the others run. */
  lemma FirstStaysDone(tree: Tree, next: Tree, after: Tree, steps: seq<Step>)
    requires steps != [] && Plannable(tree, steps) && Done(next, steps[0])
    requires (forall p | p in tree :: p in next) && Route(next, steps[0]) == Route(tree, steps[0])
    requires Extends(next, after, Places(tree, steps[1..]), Reaches(tree, steps[1..]))
    ensures Done(after, steps[0])
  {
    var rest := steps[1..];
    forall j | 0 <= j < |rest|
      ensures Undisturbed(tree, Route(tree, steps[0]), PlaceSet(tree, rest[j]), {Reach(tree, rest[j])})
    {
      assert rest[j] == steps[j + 1];
    }
    UndisturbedByAll(tree, Route(tree, steps[0]), rest);
    UndisturbedLater(tree, next, Route(tree, steps[0]), Places(tree, rest), Reaches(tree, rest));
    RouteKept(next, after, Places(tree, rest), Reaches(tree, rest), steps[0]);
  }

  /** A run of such steps that works has done every one of them and touched only their places. */
  lemma {:induction false} StepsEffect(tree: Tree, steps: seq<Step>, after: Tree)
    requires Regular(tree) && Plannable(tree, steps) && ApplyAll(tree, steps) == Ok(after)
    ensures Regular(after) && Extends(tree, after, Places(tree, steps), Reaches(tree, steps))
    ensures forall i | 0 <= i < |steps| :: Done(after, steps[i])
    decreases |steps|
  {
    if steps != [] {
      var head, rest := [steps[0]], steps[1..];
      var next := FirstEffect(tree, steps);
      assert steps == head + rest;
      PlanKept(tree, next, head, rest);
      StepsEffect(next, rest, after);
      ExtendsTrans(tree, next, after, Places(tree, head), Places(tree, rest), Reaches(tree, head), Reaches(tree, rest));
      PlacesConcat(tree, head, rest);
      FirstStaysDone(tree, next, after, steps);
      RestDone(after, steps);
    }
  }

  lemma FirstEffect(tree: Tree, steps: seq<Step>) returns (next: Tree)
    requires steps != [] && Regular(tree) && ApplyAll(tree, steps).Ok?
    ensures ApplyAll(next, steps[1..]) == ApplyAll(tree, steps)
    ensures Done(next, steps[0]) && Regular(next) && Route(next, steps[0]) == Route(tree, steps[0])
    ensures Extends(tree, next, Places(tree, [steps[0]]), Reaches(tree, [steps[0]]))
  {
    next := FirstStep(tree, steps);
    StepEffect(tree, steps[0], next);
    OneStep(tree, steps[0]);
  }

  lemma OneStep(tree: Tree, step: Step)
    ensures Places(tree, [step]) == PlaceSet(tree, step) && Reaches(tree, [step]) == {Reach(tree, step)}
  {
    var none: seq<Step> := [step][1..];
    assert none == [] && Places(tree, none) == {} && Reaches(tree, none) == {};
  }

  lemma RestDone(after: Tree, steps: seq<Step>)
    requires steps != [] && Done(after, steps[0]) && forall i | 0 <= i < |steps[1..]| :: Done(after, steps[1..][i])
    ensures forall i | 0 <= i < |steps| :: Done(after, steps[i])
  {
    forall i | 1 <= i < |steps| ensures Done(after, steps[i]) {
      assert steps[i] == steps[1..][i - 1];
    }
  }

  ghost predicate AllDone(tree: Tree, steps: seq<Step>) {
    forall i | 0 <= i < |steps| :: Done(tree, steps[i])
  }

  ghost predicate AllSteady(tree: Tree, steps: seq<Step>) {
    forall i | 0 <= i < |steps| :: Steady(tree, steps[i])
  }

  /** Steps that work take no path away. */
  lemma ApplyGrows(tree: Tree, step: Step)
    requires Apply(tree, step).Ok?
    ensures tree.Keys <= Apply(tree, step).value.Keys
  {
  }

  lemma {:induction false} ApplyAllGrows(tree: Tree, steps: seq<Step>)
    requires ApplyAll(tree, steps).Ok?
    ensures tree.Keys <= ApplyAll(tree, steps).value.Keys
    decreases |steps|
  {
    if steps != [] {
      var next := FirstStep(tree, steps);
      ApplyGrows(tree, steps[0]);
      ApplyAllGrows(next, steps[1..]);
    }
  }

  lemma {:induction false} RunGrows(tree: Tree, actions: seq<Action>, listing: Listing)
    requires RunActions(tree, actions, listing).Ok?
    ensures tree.Keys <= RunActions(tree, actions, listing).value.Keys
    decreases |actions|
  {
    if actions != [] {
      var steps := StepsOf(actions[0], Sources(tree, actions[0].source, listing));
      ApplyAllGrows(tree, steps);
      RunGrows(ApplyAll(tree, steps).value, actions[1..], listing);
    }
  }

  /** Done steps run again leave the tree as it is exactly when all are steady. */
  lemma {:induction false} DoneStepsAgain(tree: Tree, steps: seq<Step>)
    requires Regular(tree) && AllDone(tree, steps)
    ensures AllSteady(tree, steps) ==> ApplyAll(tree, steps) == Ok(tree)
    ensures !AllSteady(tree, steps) ==>
              ApplyAll(tree, steps).Err? || exists q :: q in ApplyAll(tree, steps).value && q !in tree
    decreases |steps|
  {
    if steps != [] {
      DoneAgain(tree, steps[0]);
      DoneStepsAgain(tree, steps[1..]);
      SteadySplit(tree, steps);
      if !Steady(tree, steps[0]) && ApplyAll(tree, steps).Ok? {
        var next := FirstStep(tree, steps);
        ApplyAllGrows(next, steps[1..]);
      }
    }
  }

  lemma SteadySplit(tree: Tree, steps: seq<Step>)
    requires steps != []
    ensures AllSteady(tree, steps) <==> Steady(tree, steps[0]) && AllSteady(tree, steps[1..])
  {
    assert forall i | 1 <= i < |steps| :: steps[i] == steps[1..][i - 1];
    if AllSteady(tree, steps) {
      assert forall i | 0 <= i < |steps[1..]| :: steps[1..][i] == steps[i + 1];
    }
  }

  lemma Prepended(tree: Tree, step: Step, rest: seq<Step>, next: Tree)
    requires Apply(tree, step) == Ok(next)
    ensures ApplyAll(tree, [step] + rest) == ApplyAll(next, rest)
  {
    assert ([step] + rest)[0] == step && ([step] + rest)[1..] == rest;
  }

  lemma Regrouped<T>(s: seq<T>, more: seq<T>)
    requires s != []
    ensures s + more == [s[0]] + (s[1..] + more)
  {
  }

  lemma FirstStep(tree: Tree, steps: seq<Step>) returns (next: Tree)
    requires steps != [] && ApplyAll(tree, steps).Ok?
    ensures Apply(tree, steps[0]) == Ok(next) && ApplyAll(next, steps[1..]) == ApplyAll(tree, steps)
  {
    next := Apply(tree, steps[0]).value;
  }

  /** The first step takes the tree to `next`, whatever follows it. */
  lemma FirstApplied(tree: Tree, steps: seq<Step>, more: seq<Step>) returns (next: Tree)
    requires steps != [] && ApplyAll(tree, steps).Ok?
    ensures ApplyAll(next, steps[1..]) == ApplyAll(tree, steps)
    ensures ApplyAll(tree, steps + more) == ApplyAll(next, steps[1..] + more)
  {
    next := FirstStep(tree, steps);
    Prepended(tree, steps[0], steps[1..] + more, next);
    Regrouped(steps, more);
  }

  lemma {:induction false} HeadWorks(tree: Tree, head: seq<Step>, rest: seq<Step>)
    requires ApplyAll(tree, head + rest).Ok?
    ensures ApplyAll(tree, head).Ok?
    decreases |head|
  {
    if head != [] {
      assert (head + rest)[0] == head[0] && (head + rest)[1..] == head[1..] + rest;
      HeadWorks(Apply(tree, head[0]).value, head[1..], rest);
    }
  }

  lemma {:induction false} ApplyConcat(tree: Tree, head: seq<Step>, rest: seq<Step>)
    requires ApplyAll(tree, head).Ok?
    ensures ApplyAll(tree, head + rest) == ApplyAll(ApplyAll(tree, head).value, rest)
    decreases |head|
  {
    if head == [] {
      assert head + rest == rest;
    } else {
      var next := FirstApplied(tree, head, rest);
      ApplyConcat(next, head[1..], rest);
    }
  }

  // ---------------------------------------------------------------- the sources stay what they are

  /** The look-up of a source depends on what is at this path. */
  predicate Sees(tree: Tree, source: Source, q: Path) {
    match source
    case Fixed(p) => q == p || (p in tree && tree[p] == Link(q))
    case Glob(matches) => matches(q)
  }

  /** A path that writing to these places and making directories above these paths may change. */
  ghost predicate Touched(tree: Tree, places: set<Path>, reaches: set<Path>, q: Path) {
    q in places || (q !in tree && Above(q, reaches))
  }

  /** No source of these actions looks at such a path. */
  ghost predicate Independent(tree: Tree, actions: seq<Action>, places: set<Path>, reaches: set<Path>) {
    forall i, q | 0 <= i < |actions| && Touched(tree, places, reaches, q) :: !Sees(tree, actions[i].source, q)
  }

  lemma UntouchedSame(tree: Tree, after: Tree, places: set<Path>, reaches: set<Path>, q: Path)
    requires Extends(tree, after, places, reaches) && !Touched(tree, places, reaches, q)
    ensures SameAt(tree, after, q)
  {
    assert q in after && q !in tree ==> IsDir(after, q);
  }

  lemma SourcesKept(tree: Tree, after: Tree, places: set<Path>, reaches: set<Path>, source: Source, listing: Listing)
    requires Lists(listing) && Extends(tree, after, places, reaches)
    requires forall q | Touched(tree, places, reaches, q) :: !Sees(tree, source, q)
    ensures Sources(after, source, listing) == Sources(tree, source, listing)
    ensures forall q :: Sees(after, source, q) == Sees(tree, source, q)
  {
    match source
    case Fixed(p) =>
      UntouchedSame(tree, after, places, reaches, p);
      if p in tree && tree[p].Link? {
        UntouchedSame(tree, after, places, reaches, tree[p].dest);
      }
    case Glob(matches) =>
      forall q | matches(q) ensures SameAt(tree, after, q) {
        UntouchedSame(tree, after, places, reaches, q);
      }
      SameMatches(tree, after, matches);
      SameResolve(tree, after, matches, listing(set p | p in tree && matches(p)));
  }

  lemma SameMatches(tree: Tree, after: Tree, matches: Path -> bool)
    requires forall q | matches(q) :: SameAt(tree, after, q)
    ensures (set p | p in after && matches(p)) == (set p | p in tree && matches(p))
  {
    forall p | matches(p) ensures p in after <==> p in tree {
      assert SameAt(tree, after, p);
    }
  }

  lemma SameResolve(tree: Tree, after: Tree, matches: Path -> bool, ps: seq<Path>)
    requires forall q | matches(q) :: SameAt(tree, after, q)
    ensures (forall p | p in ps :: matches(p)) ==> ResolveAll(after, ps) == ResolveAll(tree, ps)
  {
    if forall p | p in ps :: matches(p) {
      forall i | 0 <= i < |ps| ensures Resolve(after, ps[i]) == Resolve(tree, ps[i]) {
        assert ps[i] in ps && SameAt(tree, after, ps[i]);
      }
    }
  }

  ghost predicate SameSources(tree: Tree, after: Tree, actions: seq<Action>, listing: Listing) {
    forall i | 0 <= i < |actions| ::
      Sources(after, actions[i].source, listing) == Sources(tree, actions[i].source, listing)
  }

  ghost predicate SameSight(tree: Tree, after: Tree, actions: seq<Action>) {
    forall i, q | 0 <= i < |actions| :: Sees(after, actions[i].source, q) == Sees(tree, actions[i].source, q)
  }

  lemma AllSourcesKept(tree: Tree, after: Tree, places: set<Path>, reaches: set<Path>, actions: seq<Action>,
                       listing: Listing)
    requires Lists(listing) && Extends(tree, after, places, reaches) && Independent(tree, actions, places, reaches)
    ensures SameSources(tree, after, actions, listing) && SameSight(tree, after, actions)
  {
    forall i | 0 <= i < |actions|
      ensures Sources(after, actions[i].source, listing) == Sources(tree, actions[i].source, listing)
      ensures forall q :: Sees(after, actions[i].source, q) == Sees(tree, actions[i].source, q)
    {
      SourcesKept(tree, after, places, reaches, actions[i].source, listing);
    }
  }

  lemma TouchedPart(tree: Tree, p: set<Path>, q: set<Path>, r: set<Path>, s: set<Path>, x: Path)
    requires p <= q && r <= s && Touched(tree, p, r, x)
    ensures Touched(tree, q, s, x)
  {
  }

  lemma IndependentPart(tree: Tree, actions: seq<Action>, p: set<Path>, q: set<Path>, r: set<Path>, s: set<Path>)
    requires Independent(tree, actions, q, s) && p <= q && r <= s
    ensures Independent(tree, actions, p, r)
  {
    forall i, x | 0 <= i < |actions| && Touched(tree, p, r, x) ensures !Sees(tree, actions[i].source, x) {
      TouchedPart(tree, p, q, r, s, x);
    }
  }

  lemma IndependentAfter(tree: Tree, after: Tree, actions: seq<Action>, places: set<Path>, reaches: set<Path>)
    requires Independent(tree, actions, places, reaches) && SameSight(tree, after, actions)
    requires forall p | p in tree :: p in after
    ensures Independent(after, actions, places, reaches)
  {
    forall i, q | 0 <= i < |actions| && Touched(after, places, reaches, q) ensures !Sees(after, actions[i].source, q) {
      assert Touched(tree, places, reaches, q);
    }
  }

  // ---------------------------------------------------------------- a run of actions

  /** All steps of a run, with the sources looked up beforehand. */
  function Plan(tree: Tree, actions: seq<Action>, listing: Listing): seq<Step> {
    if actions == [] then []
    else StepsOf(actions[0], Sources(tree, actions[0].source, listing)) + Plan(tree, actions[1..], listing)
  }

  lemma {:induction false} SamePlan(tree: Tree, after: Tree, actions: seq<Action>, listing: Listing)
    requires SameSources(tree, after, actions, listing)
    ensures Plan(after, actions, listing) == Plan(tree, actions, listing)
  {
    if actions != [] {
      SamePlan(tree, after, actions[1..], listing);
    }
  }

  /** The paths a run writes to, and the paths above which it makes directories. */
  function RunPlaces(tree: Tree, actions: seq<Action>, listing: Listing): set<Path> {
    Places(tree, Plan(tree, actions, listing))
  }

  function RunReaches(tree: Tree, actions: seq<Action>, listing: Listing): set<Path> {
    Reaches(tree, Plan(tree, actions, listing))
  }

  /**
    What the statements about a run ask for: the steps do not get into each other's way, and no source
    looks at what they change. Nothing is asked of a single step.
   */
  ghost predicate Tidy(tree: Tree, actions: seq<Action>, listing: Listing) {
    && Lists(listing)
    && Regular(tree)
    && Plannable(tree, Plan(tree, actions, listing))
    && Independent(tree, actions, RunPlaces(tree, actions, listing), RunReaches(tree, actions, listing))
  }

  ghost predicate Supplied(tree: Tree, actions: seq<Action>, listing: Listing) {
    forall i | 0 <= i < |actions| && actions[i].required :: Sources(tree, actions[i].source, listing) != []
  }

  lemma PlannableHead(tree: Tree, head: seq<Step>, rest: seq<Step>)
    requires Plannable(tree, head + rest)
    ensures Plannable(tree, head)
  {
    var all := head + rest;
    assert forall i | 0 <= i < |head| :: all[i] == head[i];
  }

  lemma IndependentTail(tree: Tree, actions: seq<Action>, places: set<Path>, reaches: set<Path>)
    requires Independent(tree, actions, places, reaches) && actions != []
    ensures Independent(tree, actions[1..], places, reaches)
  {
  }

  /** After the first action the rest of the run is as tidy as the whole was, and its plan is the same. */
  lemma TidyAfterFirst(tree: Tree, actions: seq<Action>, listing: Listing, next: Tree)
    requires Tidy(tree, actions, listing) && actions != []
    requires ApplyAll(tree, StepsOf(actions[0], Sources(tree, actions[0].source, listing))) == Ok(next)
    ensures Tidy(next, actions[1..], listing) && SameSources(tree, next, actions[1..], listing)
    ensures Plan(next, actions[1..], listing) == Plan(tree, actions[1..], listing)
  {
    var head := StepsOf(actions[0], Sources(tree, actions[0].source, listing));
    var rest := Plan(tree, actions[1..], listing);
    var places, reaches := Places(tree, head + rest), Reaches(tree, head + rest);
    assert head + rest == Plan(tree, actions, listing);
    PlacesConcat(tree, head, rest);
    PlannableHead(tree, head, rest);
    StepsEffect(tree, head, next);
    PlanKept(tree, next, head, rest);
    IndependentTail(tree, actions, places, reaches);
    IndependentPart(tree, actions[1..], Places(tree, head), places, Reaches(tree, head), reaches);
    AllSourcesKept(tree, next, Places(tree, head), Reaches(tree, head), actions[1..], listing);
    IndependentAfter(tree, next, actions[1..], places, reaches);
    IndependentPart(next, actions[1..], Places(tree, rest), places, Reaches(tree, rest), reaches);
    SamePlan(tree, next, actions[1..], listing);
  }

  /** Looking up all sources beforehand makes no difference to a run that works. */
  lemma {:induction false} RunFollowsPlan(tree: Tree, actions: seq<Action>, listing: Listing, after: Tree)
    requires Tidy(tree, actions, listing) && RunActions(tree, actions, listing) == Ok(after)
    ensures ApplyAll(tree, Plan(tree, actions, listing)) == Ok(after)
    ensures Supplied(tree, actions, listing)
    decreases |actions|
  {
    if actions != [] {
      var head := StepsOf(actions[0], Sources(tree, actions[0].source, listing));
      var next := ApplyAll(tree, head).value;
      TidyAfterFirst(tree, actions, listing, next);
      RunFollowsPlan(next, actions[1..], listing, after);
      ApplyConcat(tree, head, Plan(tree, actions[1..], listing));
      forall i | 0 <= i < |actions| && actions[i].required ensures Sources(tree, actions[i].source, listing) != [] {
        if i > 0 {
          assert actions[i] == actions[1..][i - 1];
        }
      }
    }
  }

  /** A run works exactly when every required action has a source and the steps of the plan work one after the other. */
  lemma {:induction false} RunWorksIff(tree: Tree, actions: seq<Action>, listing: Listing)
    requires Tidy(tree, actions, listing)
    ensures RunActions(tree, actions, listing).Ok? <==>
            Supplied(tree, actions, listing) && ApplyAll(tree, Plan(tree, actions, listing)).Ok?
    decreases |actions|
  {
    if RunActions(tree, actions, listing).Ok? {
      RunFollowsPlan(tree, actions, listing, RunActions(tree, actions, listing).value);
    } else if actions != [] && Supplied(tree, actions, listing) && ApplyAll(tree, Plan(tree, actions, listing)).Ok? {
      var sources := Sources(tree, actions[0].source, listing);
      var head, rest := StepsOf(actions[0], sources), Plan(tree, actions[1..], listing);
      assert actions[0].required ==> sources != [];
      HeadWorks(tree, head, rest);
      ApplyConcat(tree, head, rest);
      var next := ApplyAll(tree, head).value;
      TidyAfterFirst(tree, actions, listing, next);
      forall i | 0 <= i < |actions[1..]| && actions[1..][i].required
        ensures Sources(next, actions[1..][i].source, listing) != []
      {
        assert actions[1..][i] == actions[i + 1];
      }
      RunWorksIff(next, actions[1..], listing);
    }
  }

  /**
    A run that works has done every step and left the sources as they were; all else is as before
    but for new directories above where the steps went.
   */
  lemma RunEffect(tree: Tree, actions: seq<Action>, listing: Listing, after: Tree)
    requires Tidy(tree, actions, listing) && RunActions(tree, actions, listing) == Ok(after)
    ensures Regular(after) && SameSources(tree, after, actions, listing) && SameSight(tree, after, actions)
    ensures Supplied(after, actions, listing) && Plan(after, actions, listing) == Plan(tree, actions, listing)
    ensures Extends(tree, after, RunPlaces(tree, actions, listing), RunReaches(tree, actions, listing))
    ensures AllDone(after, Plan(tree, actions, listing))
  {
    var steps := Plan(tree, actions, listing);
    RunFollowsPlan(tree, actions, listing, after);
    StepsEffect(tree, steps, after);
    AllSourcesKept(tree, after, Places(tree, steps), Reaches(tree, steps), actions, listing);
    SamePlan(tree, after, actions, listing);
  }

  /** Where a path leads: through the link that is there, to itself otherwise, or out of the install directory. */
  predicate LeadsTo(tree: Tree, p: Path, end: Option<Path>) {
    match end
    case Some(q) => if p in tree && tree[p].Link? then tree[p].dest == q else q == p && !(p in tree && tree[p].LinkOut?)
    case None => p in tree && tree[p].LinkOut?
  }

  /** Something stands at the path, and a link there leads to something, or out of the install directory. */
  predicate Leads(tree: Tree, p: Path) {
    p == [] || (p in tree && (tree[p].Link? && tree[p].dest != [] ==> tree[p].dest in tree))
  }

  /**
    The sources of an action: of a fixed path what it leads to, when there is something, and of a glob what
    each path that it matches leads to.
   */
  lemma SourcesIff(tree: Tree, source: Source, listing: Listing, end: Option<Path>)
    requires Lists(listing)
    ensures end in Sources(tree, source, listing) <==>
            match source
            case Fixed(p) => Leads(tree, p) && LeadsTo(tree, p, end)
            case Glob(matches) => exists p :: p in tree && matches(p) && LeadsTo(tree, p, end)
  {
    if source.Glob? {
      var matched := set p | p in tree && source.matches(p);
      var listed := listing(matched);
      var ends := ResolveAll(tree, listed);
      if end in ends {
        var i :| 0 <= i < |ends| && ends[i] == end;
        assert listed[i] in listed;
        assert listed[i] in matched && LeadsTo(tree, listed[i], end);
      }
      if p :| p in tree && source.matches(p) && LeadsTo(tree, p, end) {
        assert p in matched;
        assert p in listed;
        var i :| 0 <= i < |listed| && listed[i] == p;
        assert ends[i] == end;
      }
    }
  }

  /** A target without the name of the source, or with it: the last component, and nothing for a place outside. */
  predicate RendersTo(target: Target, source: Option<Path>, p: Path) {
    match target
    case Plain(path) => p == path
    case ByName(place) =>
      p == place(if source.Some? && source.value != [] then source.value[|source.value| - 1] else "")
  }

  /** The steps of a plan: every source of every action, with its rendered target. */
  lemma {:induction false} PlanIff(tree: Tree, actions: seq<Action>, listing: Listing, step: Step)
    ensures step in Plan(tree, actions, listing) <==>
            exists i | 0 <= i < |actions| :: StepOf(tree, actions[i], listing, step)
    decreases |actions|
  {
    if actions != [] {
      var head := StepsOf(actions[0], Sources(tree, actions[0].source, listing));
      HeadSteps(tree, actions[0], listing, step);
      PlanIff(tree, actions[1..], listing, step);
      assert step in Plan(tree, actions, listing) <==> step in head || step in Plan(tree, actions[1..], listing);
      if i :| 0 <= i < |actions| && StepOf(tree, actions[i], listing, step) {
        assert i > 0 ==> StepOf(tree, actions[1..][i - 1], listing, step);
      }
      if i :| 0 <= i < |actions[1..]| && StepOf(tree, actions[1..][i], listing, step) {
        assert StepOf(tree, actions[i + 1], listing, step);
      }
    }
  }

  predicate StepOf(tree: Tree, a: Action, listing: Listing, step: Step) {
    && step.operation == a.operation && step.source in Sources(tree, a.source, listing)
    && RendersTo(a.target, step.source, step.target)
  }

  lemma HeadSteps(tree: Tree, a: Action, listing: Listing, step: Step)
    ensures step in StepsOf(a, Sources(tree, a.source, listing)) <==> StepOf(tree, a, listing, step)
  {
    var sources := Sources(tree, a.source, listing);
    var steps := StepsOf(a, sources);
    if StepOf(tree, a, listing, step) {
      var i :| 0 <= i < |sources| && sources[i] == step.source;
      assert steps[i] == step;
    }
  }

  lemma {:induction false} PlanHas(tree: Tree, actions: seq<Action>, listing: Listing, i: nat)
    requires i < |actions|
    ensures var steps := StepsOf(actions[i], Sources(tree, actions[i].source, listing));
            forall j | 0 <= j < |steps| :: steps[j] in Plan(tree, actions, listing)
    decreases |actions|
  {
    if i > 0 {
      PlanHas(tree, actions[1..], listing, i - 1);
    }
  }

  lemma DoneIsThere(tree: Tree, step: Step)
    requires Done(tree, step)
    ensures There(tree, step.target)
  {
  }

  lemma DoneIsReady(tree: Tree, actions: seq<Action>, listing: Listing)
    requires Supplied(tree, actions, listing) && AllDone(tree, Plan(tree, actions, listing))
    ensures Ready(tree, actions, listing)
  {
    forall i | 0 <= i < |actions| ensures ReadyFor(tree, actions[i], listing) {
      var sources := Sources(tree, actions[i].source, listing);
      var steps := StepsOf(actions[i], sources);
      PlanHas(tree, actions, listing, i);
      forall j | 0 <= j < |sources| ensures There(tree, TargetOf(actions[i], sources[j])) {
        assert steps[j] in Plan(tree, actions, listing);
        DoneIsThere(tree, steps[j]);
      }
    }
  }

  /**
    The readiness check is true exactly when every required action has a source, and something stands at
    the target of every step of the plan, be it a link that leads nowhere.
   */
  lemma ReadyIff(tree: Tree, actions: seq<Action>, listing: Listing)
    ensures Ready(tree, actions, listing) <==>
            && Supplied(tree, actions, listing)
            && forall step | step in Plan(tree, actions, listing) :: step.target == [] || step.target in tree
  {
    if Ready(tree, actions, listing) {
      forall step | step in Plan(tree, actions, listing) ensures step.target == [] || step.target in tree {
        PlanIff(tree, actions, listing, step);
        var i :| 0 <= i < |actions| && StepOf(tree, actions[i], listing, step);
        ReadyTarget(tree, actions[i], listing, step);
      }
      forall i | 0 <= i < |actions| && actions[i].required ensures Sources(tree, actions[i].source, listing) != [] {
        assert ReadyFor(tree, actions[i], listing);
      }
    }
    if Supplied(tree, actions, listing) &&
        forall step | step in Plan(tree, actions, listing) :: step.target == [] || step.target in tree {
      forall i | 0 <= i < |actions| ensures ReadyFor(tree, actions[i], listing) {
        var sources := Sources(tree, actions[i].source, listing);
        var steps := StepsOf(actions[i], sources);
        PlanHas(tree, actions, listing, i);
        forall j | 0 <= j < |sources| ensures There(tree, TargetOf(actions[i], sources[j])) {
          assert steps[j] in Plan(tree, actions, listing);
        }
      }
    }
  }

  lemma ReadyTarget(tree: Tree, a: Action, listing: Listing, step: Step)
    requires ReadyFor(tree, a, listing) && StepOf(tree, a, listing, step)
    ensures step.target == [] || step.target in tree
  {
    var sources := Sources(tree, a.source, listing);
    var i :| 0 <= i < |sources| && sources[i] == step.source;
    assert There(tree, TargetOf(a, sources[i]));
  }

  /** Once the target of a step is gone, while the sources are still there, the check is false again. */
  lemma GoneIsNotReady(tree: Tree, actions: seq<Action>, listing: Listing, after: Tree, later: Tree, step: Step)
    requires Tidy(tree, actions, listing) && RunActions(tree, actions, listing) == Ok(after)
    requires SameSources(after, later, actions, listing)
    requires step in Plan(tree, actions, listing) && step.target != [] && step.target !in later
    ensures Ready(after, actions, listing) && !Ready(later, actions, listing)
  {
    RunEffect(tree, actions, listing, after);
    DoneIsReady(after, actions, listing);
    SamePlan(after, later, actions, listing);
    ReadyIff(later, actions, listing);
  }

  lemma SplitDone(tree: Tree, head: seq<Step>, rest: seq<Step>)
    requires AllDone(tree, head + rest)
    ensures AllDone(tree, head) && AllDone(tree, rest)
  {
    var all := head + rest;
    assert forall i | 0 <= i < |head| :: all[i] == head[i];
    assert forall i | 0 <= i < |rest| :: all[|head| + i] == rest[i];
  }

  lemma SplitSteady(tree: Tree, head: seq<Step>, rest: seq<Step>)
    ensures AllSteady(tree, head + rest) <==> AllSteady(tree, head) && AllSteady(tree, rest)
  {
    var all := head + rest;
    assert forall i | 0 <= i < |head| :: all[i] == head[i];
    assert forall i | 0 <= i < |rest| :: all[|head| + i] == rest[i];
    assert forall i | 0 <= i < |all| :: all[i] == if i < |head| then head[i] else rest[i - |head|];
  }

  /** Where all steps are done, a run changes nothing exactly when they are all steady. */
  lemma {:induction false} DoneRunsAgain(tree: Tree, actions: seq<Action>, listing: Listing)
    requires Regular(tree) && Supplied(tree, actions, listing) && AllDone(tree, Plan(tree, actions, listing))
    ensures RunActions(tree, actions, listing) == Ok(tree) <==> AllSteady(tree, Plan(tree, actions, listing))
    ensures !AllSteady(tree, Plan(tree, actions, listing)) && RunActions(tree, actions, listing).Ok? ==>
              exists q :: q in RunActions(tree, actions, listing).value && q !in tree
    decreases |actions|
  {
    if actions != [] {
      var head := StepsOf(actions[0], Sources(tree, actions[0].source, listing));
      var rest := Plan(tree, actions[1..], listing);
      SplitDone(tree, head, rest);
      SplitSteady(tree, head, rest);
      DoneStepsAgain(tree, head);
      DoneRunsAgain(tree, actions[1..], listing);
      if !AllSteady(tree, head) && RunActions(tree, actions, listing).Ok? {
        RunGrows(ApplyAll(tree, head).value, actions[1..], listing);
      }
    }
  }

  /** The directories above a path are there after a run: they were there, or the run makes them. */
  predicate RootedAfter(tree: Tree, reaches: set<Path>, p: Path) {
    forall q | q in Parents(p) :: IsDir(tree, q) || (q !in tree && exists r | r in reaches :: ProperPrefix(q, r))
  }

  lemma RootedAfterIff(tree: Tree, after: Tree, places: set<Path>, reaches: set<Path>, p: Path)
    requires Extends(tree, after, places, reaches)
    ensures Rooted(after, p) <==> RootedAfter(tree, reaches, p)
  {
    forall q | q in Parents(p)
      ensures IsDir(after, q) <==> IsDir(tree, q) || (q !in tree && exists r | r in reaches :: ProperPrefix(q, r))
    {
      if r :| r in reaches && ProperPrefix(q, r) {
        assert Rooted(after, r) && q in Parents(r);
      }
    }
  }

  /** Every link step leads to a source whose directories are there, or are made by the run. */
  ghost predicate LinksRooted(tree: Tree, actions: seq<Action>, listing: Listing) {
    var steps := Plan(tree, actions, listing);
    forall i | 0 <= i < |steps| && steps[i].operation.Symlink? && steps[i].source.Some? ::
      RootedAfter(tree, RunReaches(tree, actions, listing), steps[i].source.value)
  }

  /**
    A successful run makes the readiness check true, and running once more works and changes nothing
    exactly when the directories above the sources of all link steps are there or made by the run.
   */
  lemma RunIsReadyAndStable(tree: Tree, actions: seq<Action>, listing: Listing, after: Tree)
    requires Tidy(tree, actions, listing) && RunActions(tree, actions, listing) == Ok(after)
    ensures Ready(after, actions, listing)
    ensures RunActions(after, actions, listing) == Ok(after) <==> LinksRooted(tree, actions, listing)
  {
    var steps := Plan(tree, actions, listing);
    RunEffect(tree, actions, listing, after);
    DoneIsReady(after, actions, listing);
    DoneRunsAgain(after, actions, listing);
    forall i | 0 <= i < |steps| && steps[i].operation.Symlink? && steps[i].source.Some?
      ensures Steady(after, steps[i]) <==> RootedAfter(tree, RunReaches(tree, actions, listing), steps[i].source.value)
    {
      var places, reaches := RunPlaces(tree, actions, listing), RunReaches(tree, actions, listing);
      RootedAfterIff(tree, after, places, reaches, steps[i].source.value);
    }
  }

  lemma PresentIsRooted(tree: Tree, reaches: set<Path>, p: Path)
    requires Regular(tree) && (p == [] || p in tree)
    ensures RootedAfter(tree, reaches, p)
  {
    RegularRooted(tree, p);
    assert forall q | q in Parents(p) :: IsDir(tree, q);
  }

  /** In particular a run whose sources are all there is stable, whatever its actions are. */
  lemma PresentRunIsStable(tree: Tree, actions: seq<Action>, listing: Listing, after: Tree)
    requires Tidy(tree, actions, listing) && RunActions(tree, actions, listing) == Ok(after)
    requires forall step | step in Plan(tree, actions, listing) && step.source.Some? ::
               step.source.value == [] || step.source.value in tree
    ensures RunActions(after, actions, listing) == Ok(after)
  {
    var steps := Plan(tree, actions, listing);
    RunIsReadyAndStable(tree, actions, listing, after);
    forall i | 0 <= i < |steps| && steps[i].operation.Symlink? && steps[i].source.Some?
      ensures RootedAfter(tree, RunReaches(tree, actions, listing), steps[i].source.value)
    {
      assert steps[i] in steps;
      PresentIsRooted(tree, RunReaches(tree, actions, listing), steps[i].source.value);
    }
  }

  // ---------------------------------------------------------------- what the cleanup removes

  ghost predicate Below(targets: set<Path>, q: Path) {
    exists t :: t in targets && Under(t, q)
  }

  /** The tree without these paths and everything under them. */
  ghost function Without(tree: Tree, targets: set<Path>): Tree {
    map q | q in tree && !Below(targets, q) :: tree[q]
  }

  lemma UnderTrans(t: Path, q: Path, p: Path)
    requires Under(t, q) && ProperPrefix(q, p)
    ensures Under(t, p)
  {
    assert p[..|t|] == p[..|q|][..|t|];
  }

  lemma RegularWithout(tree: Tree, targets: set<Path>)
    requires Regular(tree)
    ensures Regular(Without(tree, targets))
  {
    var rest := Without(tree, targets);
    forall p, q | p in rest && q in Parents(p) ensures q in rest && rest[q].Dir? {
      if Below(targets, q) {
        var t :| t in targets && Under(t, q);
        UnderTrans(t, q, p);
        assert Below(targets, p);
      }
    }
  }

  lemma RemoveIsWithout(tree: Tree, p: Path)
    requires Regular(tree)
    ensures Remove(tree, p) == Without(tree, {p})
  {
    forall q ensures Below({p}, q) == Under(p, q) {
      assert Under(p, q) ==> p in {p} && Under(p, q);
    }
    if p != [] && !(p in tree && tree[p].Dir?) {
      forall q | q in tree && Under(p, q) ensures q == p {
        assert q != p ==> p in Parents(q);
      }
    }
  }

  lemma WithoutTwice(tree: Tree, a: set<Path>, b: set<Path>)
    ensures Without(Without(tree, a), b) == Without(tree, a + b)
  {
    forall q ensures Below(a + b, q) == (Below(a, q) || Below(b, q)) {
      BelowUnion(a, b, q);
    }
  }

  lemma BelowUnion(a: set<Path>, b: set<Path>, q: Path)
    ensures Below(a + b, q) == (Below(a, q) || Below(b, q))
  {
    if Below(a, q) {
      var t :| t in a && Under(t, q);
      assert t in a + b;
    }
    if Below(b, q) {
      var t :| t in b && Under(t, q);
      assert t in a + b;
    }
  }

  function SetOf(ps: seq<Path>): set<Path> {
    set p | p in ps
  }

  lemma WithoutNothing(tree: Tree)
    ensures Without(tree, {}) == tree
  {
  }

  lemma {:induction false} RemoveAllIsWithout(tree: Tree, ps: seq<Path>)
    requires Regular(tree)
    ensures RemoveAll(tree, ps) == Without(tree, SetOf(ps))
    decreases |ps|
  {
    if ps == [] {
      WithoutNothing(tree);
    } else {
      RemoveIsWithout(tree, ps[0]);
      RegularWithout(tree, {ps[0]});
      RemoveAllIsWithout(Remove(tree, ps[0]), ps[1..]);
      WithoutTwice(tree, {ps[0]}, SetOf(ps[1..]));
      assert ps == [ps[0]] + ps[1..];
      assert {ps[0]} + SetOf(ps[1..]) == SetOf(ps);
    }
  }

  /** No source of these actions looks at a path of the tree that goes with the targets. */
  ghost predicate Unseen(tree: Tree, actions: seq<Action>, targets: set<Path>) {
    forall i, q | 0 <= i < |actions| && q in tree && Below(targets, q) :: !Sees(tree, actions[i].source, q)
  }

  lemma SourcesLeft(tree: Tree, targets: set<Path>, source: Source, listing: Listing)
    requires Lists(listing) && forall q | q in tree && Below(targets, q) :: !Sees(tree, source, q)
    ensures Sources(Without(tree, targets), source, listing) == Sources(tree, source, listing)
    ensures forall q | Sees(Without(tree, targets), source, q) :: Sees(tree, source, q)
  {
    var rest := Without(tree, targets);
    if source.Glob? {
      var matches := source.matches;
      assert (set p | p in rest && matches(p)) == (set p | p in tree && matches(p));
      var ps := listing(set p | p in tree && matches(p));
      forall i | 0 <= i < |ps| ensures Resolve(rest, ps[i]) == Resolve(tree, ps[i]) {
        assert ps[i] in ps;
        assert ps[i] in tree && matches(ps[i]);
      }
      assert ResolveAll(rest, ps) == ResolveAll(tree, ps);
    }
  }

  lemma AllSourcesLeft(tree: Tree, targets: set<Path>, actions: seq<Action>, listing: Listing)
    requires Lists(listing) && Unseen(tree, actions, targets)
    ensures SameSources(tree, Without(tree, targets), actions, listing)
    ensures forall i, q | 0 <= i < |actions| && Sees(Without(tree, targets), actions[i].source, q) ::
              Sees(tree, actions[i].source, q)
  {
    forall i | 0 <= i < |actions|
      ensures Sources(Without(tree, targets), actions[i].source, listing) == Sources(tree, actions[i].source, listing)
      ensures forall q | Sees(Without(tree, targets), actions[i].source, q) :: Sees(tree, actions[i].source, q)
    {
      SourcesLeft(tree, targets, actions[i].source, listing);
    }
  }

  /** All targets the cleanup looks at, with the sources looked up beforehand. */
  function CleanupSet(tree: Tree, actions: seq<Action>, listing: Listing): set<Path> {
    if actions == [] then {}
    else SetOf(CleanupTargets(tree, actions[0], listing)) + CleanupSet(tree, actions[1..], listing)
  }

  lemma {:induction false} SameCleanupSet(tree: Tree, after: Tree, actions: seq<Action>, listing: Listing)
    requires SameSources(tree, after, actions, listing)
    ensures CleanupSet(after, actions, listing) == CleanupSet(tree, actions, listing)
  {
    if actions != [] {
      SameCleanupSet(tree, after, actions[1..], listing);
    }
  }

  lemma UnseenPart(tree: Tree, actions: seq<Action>, targets: set<Path>, part: set<Path>)
    requires Unseen(tree, actions, targets) && part <= targets
    ensures Unseen(tree, actions, part)
  {
    forall q | Below(part, q) ensures Below(targets, q) {
      var t :| t in part && Under(t, q);
      assert t in targets;
    }
  }

  lemma UnseenAfter(tree: Tree, actions: seq<Action>, gone: set<Path>, targets: set<Path>, listing: Listing)
    requires Lists(listing) && Unseen(tree, actions, targets) && gone <= targets && actions != []
    ensures Unseen(Without(tree, gone), actions[1..], targets)
    ensures SameSources(tree, Without(tree, gone), actions[1..], listing)
  {
    UnseenPart(tree, actions, targets, gone);
    AllSourcesLeft(tree, gone, actions, listing);
    var rest := actions[1..];
    forall i | 0 <= i < |rest|
      ensures rest[i] == actions[i + 1]
    {
    }
    forall i, q | 0 <= i < |rest| && q in Without(tree, gone) && Below(targets, q)
      ensures !Sees(Without(tree, gone), rest[i].source, q)
    {
      assert rest[i] == actions[i + 1];
    }
  }

  /** The targets the cleanup really meets: every action looks up its sources when its turn comes. */
  ghost function CleanupMeets(tree: Tree, actions: seq<Action>, listing: Listing): set<Path>
    decreases |actions|
  {
    if actions == [] then {}
    else
      var head := SetOf(CleanupTargets(tree, actions[0], listing));
      head + CleanupMeets(Without(tree, head), actions[1..], listing)
  }

  lemma {:induction false} CleanActionsIsWithout(tree: Tree, actions: seq<Action>, listing: Listing)
    requires Regular(tree)
    ensures CleanActions(tree, actions, listing) == Without(tree, CleanupMeets(tree, actions, listing))
    decreases |actions|
  {
    if actions == [] {
      WithoutNothing(tree);
    } else {
      var head := SetOf(CleanupTargets(tree, actions[0], listing));
      var next := Without(tree, head);
      RemoveAllIsWithout(tree, CleanupTargets(tree, actions[0], listing));
      RegularWithout(tree, head);
      CleanActionsIsWithout(next, actions[1..], listing);
      WithoutTwice(tree, head, CleanupMeets(next, actions[1..], listing));
    }
  }

  /** When the sources do not look at what goes, the cleanup meets all targets there were at its start. */
  lemma {:induction false} MeetsAll(tree: Tree, actions: seq<Action>, listing: Listing)
    requires Lists(listing) && Unseen(tree, actions, CleanupSet(tree, actions, listing))
    ensures CleanupMeets(tree, actions, listing) == CleanupSet(tree, actions, listing)
    decreases |actions|
  {
    if actions != [] {
      var head, rest := SetOf(CleanupTargets(tree, actions[0], listing)), CleanupSet(tree, actions[1..], listing);
      var next := Without(tree, head);
      UnseenAfter(tree, actions, head, head + rest, listing);
      SameCleanupSet(tree, next, actions[1..], listing);
      UnseenPart(next, actions[1..], head + rest, rest);
      MeetsAll(next, actions[1..], listing);
    }
  }

  /** Removing paths brings no new source. */
  lemma SourcesShrink(tree: Tree, gone: set<Path>, source: Source, listing: Listing)
    requires Lists(listing) && [] !in tree
    ensures forall s | s in Sources(Without(tree, gone), source, listing) :: s in Sources(tree, source, listing)
  {
    var rest := Without(tree, gone);
    if source.Glob? {
      var matches := source.matches;
      var fewer, more := set p | p in rest && matches(p), set p | p in tree && matches(p);
      var ps, qs := listing(fewer), listing(more);
      forall s | s in ResolveAll(rest, ps) ensures s in ResolveAll(tree, qs) {
        var i :| 0 <= i < |ps| && ResolveAll(rest, ps)[i] == s;
        assert ps[i] in ps && ps[i] in fewer && ps[i] in qs;
        var j :| 0 <= j < |qs| && qs[j] == ps[i];
        assert ResolveAll(tree, qs)[j] == s;
      }
    }
  }

  lemma TargetsShrink(tree: Tree, gone: set<Path>, a: Action, listing: Listing)
    requires Lists(listing) && [] !in tree
    ensures SetOf(CleanupTargets(Without(tree, gone), a, listing)) <= SetOf(CleanupTargets(tree, a, listing))
  {
    if a.target.ByName? {
      var rest := Without(tree, gone);
      SourcesShrink(tree, gone, a.source, listing);
      var fewer, more := Sources(rest, a.source, listing), Sources(tree, a.source, listing);
      forall t | t in CleanupTargets(rest, a, listing) ensures t in CleanupTargets(tree, a, listing) {
        var i :| 0 <= i < |fewer| && TargetOf(a, fewer[i]) == t;
        assert fewer[i] in fewer;
        var j :| 0 <= j < |more| && more[j] == fewer[i];
        assert CleanupTargets(tree, a, listing)[j] == t;
      }
    }
  }

  /** The cleanup meets nothing but targets there were at its start. */
  lemma {:induction false} MeetsNoMore(tree: Tree, gone: set<Path>, actions: seq<Action>, listing: Listing)
    requires Lists(listing) && [] !in tree
    ensures CleanupMeets(Without(tree, gone), actions, listing) <= CleanupSet(tree, actions, listing)
    decreases |actions|
  {
    if actions != [] {
      var head := SetOf(CleanupTargets(Without(tree, gone), actions[0], listing));
      TargetsShrink(tree, gone, actions[0], listing);
      WithoutTwice(tree, gone, head);
      MeetsNoMore(tree, gone + head, actions[1..], listing);
    }
  }

  /**
    In any regular tree the cleanup removes the targets it meets and the two cache folders with
    everything under them, and nothing else. It meets no path that was not a target at its start, and
    all of those when the sources do not look at what goes.
   */
  lemma CleanupRemoves(tree: Tree, actions: seq<Action>, listing: Listing, content: Path, downloads: Path)
    requires Lists(listing) && Regular(tree)
    ensures var met := CleanupMeets(tree, actions, listing);
            && Cleanup(tree, actions, listing, content, downloads) == Without(tree, met + {content, downloads})
            && met <= CleanupSet(tree, actions, listing)
            && (Unseen(tree, actions, CleanupSet(tree, actions, listing)) ==> met == CleanupSet(tree, actions, listing))
  {
    var met := CleanupMeets(tree, actions, listing);
    CleanActionsIsWithout(tree, actions, listing);
    RemoveCaches(tree, met, content, downloads);
    WithoutNothing(tree);
    MeetsNoMore(tree, {}, actions, listing);
    if Unseen(tree, actions, CleanupSet(tree, actions, listing)) {
      MeetsAll(tree, actions, listing);
    }
  }

  lemma RemoveCaches(tree: Tree, met: set<Path>, content: Path, downloads: Path)
    requires Regular(tree)
    ensures Remove(Remove(Without(tree, met), content), downloads) == Without(tree, met + {content, downloads})
  {
    var one := Without(tree, met);
    RegularWithout(tree, met);
    RemoveIsWithout(one, content);
    WithoutTwice(tree, met, {content});
    RegularWithout(tree, met + {content});
    RemoveIsWithout(Remove(one, content), downloads);
    WithoutTwice(tree, met + {content}, {downloads});
    assert met + {content} + {downloads} == met + {content, downloads};
  }

  /** A source sees nothing the cleanup takes after the run when it saw nothing of it before. */
  lemma UnseenAfterRun(tree: Tree, actions: seq<Action>, listing: Listing, after: Tree, targets: set<Path>)
    requires Tidy(tree, actions, listing) && RunActions(tree, actions, listing) == Ok(after)
    requires Unseen(tree, actions, targets)
    ensures Unseen(after, actions, targets)
  {
    var places, reaches := RunPlaces(tree, actions, listing), RunReaches(tree, actions, listing);
    RunEffect(tree, actions, listing, after);
    forall i, q | 0 <= i < |actions| && q in after && Below(targets, q) ensures !Sees(after, actions[i].source, q) {
      assert Sees(after, actions[i].source, q) == Sees(tree, actions[i].source, q);
      if q !in tree && !Touched(tree, places, reaches, q) {
        UntouchedSame(tree, after, places, reaches, q);
      }
    }
  }

  ghost predicate TargetsIn(steps: seq<Step>, targets: set<Path>) {
    forall i | 0 <= i < |steps| :: steps[i].target in targets
  }

  lemma TargetsLookedAt(tree: Tree, a: Action, listing: Listing)
    ensures TargetsIn(StepsOf(a, Sources(tree, a.source, listing)), SetOf(CleanupTargets(tree, a, listing)))
  {
    var steps, targets := StepsOf(a, Sources(tree, a.source, listing)), CleanupTargets(tree, a, listing);
    forall j | 0 <= j < |steps| ensures steps[j].target in targets {
      if a.target.ByName? {
        assert targets[j] == steps[j].target;
      } else {
        assert targets == [steps[j].target];
      }
    }
  }

  lemma TargetsInConcat(head: seq<Step>, rest: seq<Step>, p: set<Path>, q: set<Path>)
    requires TargetsIn(head, p) && TargetsIn(rest, q)
    ensures TargetsIn(head + rest, p + q)
  {
  }

  /** The cleanup looks at every target of the run. */
  lemma {:induction false} PlanInCleanupSet(tree: Tree, actions: seq<Action>, listing: Listing)
    ensures TargetsIn(Plan(tree, actions, listing), CleanupSet(tree, actions, listing))
    decreases |actions|
  {
    if actions != [] {
      TargetsLookedAt(tree, actions[0], listing);
      PlanInCleanupSet(tree, actions[1..], listing);
      var head := StepsOf(actions[0], Sources(tree, actions[0].source, listing));
      var first, others := SetOf(CleanupTargets(tree, actions[0], listing)), CleanupSet(tree, actions[1..], listing);
      TargetsInConcat(head, Plan(tree, actions[1..], listing), first, others);
    }
  }

  /**
    After a successful run, the cleanup removes the targets and the two cache folders with everything
    under them, all that the run wrote there included. Whatever else was there before, and is no place a
    copy was led to, is there again as it was, and the only other traces are directories the run made.
   */
  lemma CleanupUndoesRun(tree: Tree, actions: seq<Action>, listing: Listing, after: Tree, content: Path,
      downloads: Path)
    requires Tidy(tree, actions, listing) && RunActions(tree, actions, listing) == Ok(after)
    requires Unseen(tree, actions, CleanupSet(tree, actions, listing))
    ensures var steps, gone := Plan(tree, actions, listing), CleanupSet(tree, actions, listing) + {content, downloads};
            var left := Cleanup(after, actions, listing, content, downloads);
            && left == Without(after, gone)
            && (forall i | 0 <= i < |steps| :: Below(gone, steps[i].target))
            && (forall p | p in tree && p !in RunPlaces(tree, actions, listing) && !Below(gone, p) ::
                  p in left && left[p] == tree[p])
            && (forall p | p in left && p !in tree && p !in RunPlaces(tree, actions, listing) ::
                  left[p].Dir? && Above(p, RunReaches(tree, actions, listing)))
  {
    var steps, targets := Plan(tree, actions, listing), CleanupSet(tree, actions, listing);
    RunEffect(tree, actions, listing, after);
    SameCleanupSet(tree, after, actions, listing);
    UnseenAfterRun(tree, actions, listing, after, targets);
    CleanupRemoves(after, actions, listing, content, downloads);
    PlanInCleanupSet(tree, actions, listing);
    var gone := targets + {content, downloads};
    forall i | 0 <= i < |steps| ensures Below(gone, steps[i].target) {
      assert steps[i].target in gone && Under(steps[i].target, steps[i].target);
    }
    forall p | p in after && p !in tree && p !in RunPlaces(tree, actions, listing)
      ensures after[p].Dir? && Above(p, RunReaches(tree, actions, listing))
    {
      assert IsDir(after, p);
    }
  }

  // ---------------------------------------------------------------- when the cleanup takes more

  lemma {:induction false} ApplyAllRegular(tree: Tree, steps: seq<Step>)
    requires Regular(tree) && ApplyAll(tree, steps).Ok?
    ensures Regular(ApplyAll(tree, steps).value)
    decreases |steps|
  {
    if steps != [] {
      var next := FirstStep(tree, steps);
      StepEffect(tree, steps[0], next);
      ApplyAllRegular(next, steps[1..]);
    }
  }

  /** Any run keeps the tree regular. */
  lemma {:induction false} RunRegular(tree: Tree, actions: seq<Action>, listing: Listing)
    requires Regular(tree) && RunActions(tree, actions, listing).Ok?
    ensures Regular(RunActions(tree, actions, listing).value)
    decreases |actions|
  {
    if actions != [] {
      var steps := StepsOf(actions[0], Sources(tree, actions[0].source, listing));
      ApplyAllRegular(tree, steps);
      RunRegular(ApplyAll(tree, steps).value, actions[1..], listing);
    }
  }

  /** Neither a target nor in one of the cache folders. */
  predicate Foreign(p: Path, targets: set<Path>, content: Path, downloads: Path) {
    p !in targets && !Under(content, p) && !Under(downloads, p)
  }

  /** Some target is a directory with something foreign below it. */
  ghost predicate HoldsForeign(tree: Tree, targets: set<Path>, content: Path, downloads: Path) {
    exists t, p :: t in targets && (t == [] || IsDir(tree, t)) && p in tree && ProperPrefix(t, p)
                   && Foreign(p, targets, content, downloads)
  }

  /**
    After any successful run, tidy or not, the cleanup takes something besides the targets and the
    cache folders exactly when some target is a directory with something foreign below it.
   */
  lemma CleanupTakesMoreIff(tree: Tree, actions: seq<Action>, listing: Listing, after: Tree, content: Path,
      downloads: Path)
    requires Lists(listing) && Regular(tree) && RunActions(tree, actions, listing) == Ok(after)
    ensures var targets := CleanupMeets(after, actions, listing);
            var left := Cleanup(after, actions, listing, content, downloads);
            && ((exists p :: p in after && p !in left && Foreign(p, targets, content, downloads)) <==>
                HoldsForeign(after, targets, content, downloads))
            && (!HoldsForeign(after, targets, content, downloads) ==>
                left == Without(after - targets, {content, downloads}))
  {
    var targets := CleanupMeets(after, actions, listing);
    RunRegular(tree, actions, listing);
    CleanupRemoves(after, actions, listing, content, downloads);
    TakenSomeIff(after, targets, content, downloads);
    if !HoldsForeign(after, targets, content, downloads) {
      NothingForeignTaken(after, targets, content, downloads);
    }
  }

  lemma TakenSomeIff(tree: Tree, targets: set<Path>, content: Path, downloads: Path)
    requires Regular(tree)
    ensures var left := Without(tree, targets + {content, downloads});
            (exists p :: p in tree && p !in left && Foreign(p, targets, content, downloads)) <==>
            HoldsForeign(tree, targets, content, downloads)
  {
    forall p | p in tree && Foreign(p, targets, content, downloads)
      ensures Below(targets + {content, downloads}, p) <==>
              exists t :: t in targets && (t == [] || IsDir(tree, t)) && ProperPrefix(t, p)
    {
      TakenIff(tree, targets, content, downloads, p);
    }
  }

  lemma NothingForeignTaken(tree: Tree, targets: set<Path>, content: Path, downloads: Path)
    requires Regular(tree) && !HoldsForeign(tree, targets, content, downloads)
    ensures Without(tree, targets + {content, downloads}) == Without(tree - targets, {content, downloads})
  {
    forall p | p in tree
      ensures Below(targets + {content, downloads}, p) <==> p in targets || Below({content, downloads}, p)
    {
      BelowUnion(targets, {content, downloads}, p);
      BelowCaches(content, downloads, p);
      BelowSelf(targets, p);
      if Foreign(p, targets, content, downloads) {
        TakenIff(tree, targets, content, downloads, p);
      }
    }
  }

  lemma BelowSelf(targets: set<Path>, p: Path)
    ensures p in targets ==> Below(targets, p)
  {
    assert Under(p, p);
  }

  lemma BelowCaches(content: Path, downloads: Path, p: Path)
    ensures Below({content, downloads}, p) <==> Under(content, p) || Under(downloads, p)
  {
    assert content in {content, downloads} && downloads in {content, downloads};
  }

  lemma TakenIff(tree: Tree, targets: set<Path>, content: Path, downloads: Path, p: Path)
    requires Regular(tree) && p in tree && Foreign(p, targets, content, downloads)
    ensures Below(targets + {content, downloads}, p) <==>
            exists t :: t in targets && (t == [] || IsDir(tree, t)) && ProperPrefix(t, p)
  {
    BelowUnion(targets, {content, downloads}, p);
    BelowCaches(content, downloads, p);
    if Below(targets, p) {
      var t :| t in targets && Under(t, p);
      assert ProperPrefix(t, p);
      assert t != [] ==> t in Parents(p);
    }
    if t :| t in targets && (t == [] || IsDir(tree, t)) && ProperPrefix(t, p) {
      assert Under(t, p);
    }
  }

  // ---------------------------------------------------------------- two trees as examples

  const MODS: Path := ["Mods"]
  const PAK: Path := ["cache", "a.pak"]
  const CACHE: Path := ["cache"]
  const OTHER: Path := ["Mods", "own.pak"]
  const PLACED: Path := ["Mods", "a.pak"]

  /**
    A copy whose target is an existing directory puts the file inside it, and the cleanup then removes
    the whole directory, with files that never belonged to the mod.
   */
  lemma CopyIntoDirectoryIsNotUndone(listing: Listing)
    ensures var tree: Tree := map[CACHE := Dir, PAK := File("mod"), MODS := Dir, OTHER := File("own")];
            var actions := [Action(Copy, Fixed(PAK), Plain(MODS), true)];
            && RunActions(tree, actions, listing) == Ok(tree[PLACED := File("mod")])
            && OTHER !in Cleanup(tree[PLACED := File("mod")], actions, listing, CACHE, CACHE)
  {
    var tree: Tree := map[CACHE := Dir, PAK := File("mod"), MODS := Dir, OTHER := File("own")];
    var a := Action(Copy, Fixed(PAK), Plain(MODS), true);
    var after := tree[PLACED := File("mod")];
    assert Sources(tree, a.source, listing) == [Some(PAK)];
    var step := Step(Copy, Some(PAK), MODS);
    assert StepsOf(a, [Some(PAK)]) == [step];
    assert Parents(MODS) == {};
    ParentsThere(tree, MODS);
    assert MODS + ["a.pak"] == PLACED;
    assert Apply(tree, step) == Ok(after);
    assert ApplyAll(tree, [step]) == ApplyAll(after, []);
    assert RunActions(after, [], listing) == Ok(after);
    assert [a][1..] == [];
    assert CleanupTargets(after, a, listing) == [MODS];
    assert ProperPrefix(MODS, OTHER);
    var gone := Remove(after, MODS);
    assert [MODS][1..] == [];
    assert RemoveAll(after, [MODS]) == RemoveAll(gone, []) == gone;
    assert CleanActions(after, [a], listing) == CleanActions(gone, [], listing) == gone;
  }

  const GONE_DIR: Path := ["gone"]
  const GONE: Path := ["gone", "a.pak"]

  lemma ListsOne(listing: Listing, p: Path)
    requires Lists(listing)
    ensures listing({p}) == [p]
  {
    var ps := listing({p});
    assert p in ps;
    forall k | 0 <= k < |ps| ensures ps[k] == p {
      assert ps[k] in ps;
    }
    var last := |ps| - 1;
    assert ps[0] == ps[last];
  }

  predicate IsPak(p: Path) {
    p == PAK
  }

  function InMods(name: string): Path {
    ["Mods", name]
  }

  /** The look-up of the one source by a glob, where the source is a link to a place that is not there. */
  lemma DanglingSource(tree: Tree, listing: Listing)
    requires Lists(listing) && PAK in tree && tree[PAK] == Link(GONE)
    ensures Sources(tree, Glob(IsPak), listing) == [Some(GONE)]
  {
    ListsOne(listing, PAK);
    var source := Glob(IsPak);
    assert (set p | p in tree && source.matches(p)) == {PAK};
    assert ResolveAll(tree, [PAK]) == [Some(GONE)];
  }

  lemma RunOne(tree: Tree, a: Action, listing: Listing, step: Step, after: Tree)
    requires StepsOf(a, Sources(tree, a.source, listing)) == [step] && Apply(tree, step) == Ok(after)
    ensures RunActions(tree, [a], listing) == Ok(after)
  {
    assert [step][1..] == [] && [a][1..] == [];
    assert ApplyAll(tree, [step]) == ApplyAll(after, []);
  }

  lemma OneParent(tree: Tree, dir: string, name: string)
    requires [dir] !in tree
    ensures MakeParents(tree, [dir, name]) == Some(tree[[dir] := Dir])
  {
    var p := [dir, name];
    forall q ensures q in Parents(p) <==> q == [dir] {
      if q in Parents(p) {
        assert |q| == 1 && q[0] == p[..1][0];
      }
      assert p[..1] == [dir];
    }
    assert MakeParents(tree, p).value == tree[[dir] := Dir];
  }

  lemma DanglingFirst(tree: Tree)
    requires tree == map[CACHE := Dir, PAK := Link(GONE)]
    ensures Apply(tree, Step(Symlink, Some(GONE), PLACED)) == Ok(tree[MODS := Dir][PLACED := Link(GONE)])
  {
    OneParent(tree, "Mods", "a.pak");
    assert PLACED !in tree && MODS !in tree;
  }

  lemma DanglingSecond(tree: Tree)
    requires PLACED in tree && tree[PLACED] == Link(GONE) && GONE_DIR !in tree
    ensures Apply(tree, Step(Symlink, Some(GONE), PLACED)) == Ok(tree[GONE_DIR := Dir])
  {
    OneParent(tree, "gone", "a.pak");
    assert tree[GONE_DIR := Dir][PLACED := Link(GONE)] == tree[GONE_DIR := Dir];
  }

  /**
    A glob also meets links that lead nowhere. A link step for such a source does not leave the same
    tree when it runs again: the second run makes the directory of the missing place.
   */
  lemma DanglingSourceIsNotStable(listing: Listing)
    requires Lists(listing)
    ensures var tree: Tree := map[CACHE := Dir, PAK := Link(GONE)];
            var actions := [Action(Symlink, Glob(IsPak), ByName(InMods), true)];
            var once := tree[MODS := Dir][PLACED := Link(GONE)];
            && RunActions(tree, actions, listing) == Ok(once)
            && RunActions(once, actions, listing) == Ok(once[GONE_DIR := Dir])
            && GONE_DIR !in once
  {
    var tree: Tree := map[CACHE := Dir, PAK := Link(GONE)];
    var a := Action(Symlink, Glob(IsPak), ByName(InMods), true);
    var once := tree[MODS := Dir][PLACED := Link(GONE)];
    var step := Step(Symlink, Some(GONE), PLACED);
    DanglingSource(tree, listing);
    assert StepsOf(a, [Some(GONE)]) == [step];
    DanglingFirst(tree);
    RunOne(tree, a, listing, step, once);
    assert PAK != PLACED && PAK != MODS && GONE_DIR != CACHE && GONE_DIR != MODS;
    DanglingSource(once, listing);
    DanglingSecond(once);
    RunOne(once, a, listing, step, once[GONE_DIR := Dir]);
  }

  // ---------------------------------------------------------------- the methods

  class InstallDir {
    var tree: Tree
    const listing: Listing

    constructor (tree: Tree, listing: Listing)
      ensures this.tree == tree && this.listing == listing
    {
      this.tree, this.listing := tree, listing;
    }

    /** One action. On failure only the error is specified, not how far the tree has come. */
    method RunAction(a: Action) returns (failure: Option<Failure>)
      modifies this
      ensures var sources := Sources(old(tree), a.source, listing);
              var r := if a.required && sources == [] then Err(NoSource) else ApplyAll(old(tree), StepsOf(a, sources));
              match r case Ok(end) => failure == None && tree == end case Err(e) => failure == Some(e)
    {
      var sources := Sources(tree, a.source, listing);
      if a.required && sources == [] {
        return Some(NoSource);
      }
      for i := 0 to |sources|
        invariant ApplyAll(old(tree), StepsOf(a, sources)) == ApplyAll(tree, StepsOf(a, sources)[i..])
      {
        ghost var steps := StepsOf(a, sources);
        assert steps[i..][0] == steps[i] && steps[i..][1..] == steps[i + 1..];
        var r := Apply(tree, Step(a.operation, sources[i], TargetOf(a, sources[i])));
        if r.Err? {
          return Some(r.error);
        }
        tree := r.value;
      }
      failure := None;
    }

    method Run(actions: seq<Action>) returns (failure: Option<Failure>)
      modifies this
      ensures match RunActions(old(tree), actions, listing)
              case Ok(end) => failure == None && tree == end
              case Err(e) => failure == Some(e)
    {
      for i := 0 to |actions|
        invariant RunActions(old(tree), actions, listing) == RunActions(tree, actions[i..], listing)
      {
        assert actions[i..][0] == actions[i] && actions[i..][1..] == actions[i + 1..];
        failure := RunAction(actions[i]);
        if failure.Some? {
          return;
        }
      }
      failure := None;
    }

    method AllThere(a: Action, sources: seq<Option<Path>>) returns (there: bool)
      ensures there == forall k | 0 <= k < |sources| :: There(tree, TargetOf(a, sources[k]))
    {
      for j := 0 to |sources|
        invariant forall k | 0 <= k < j :: There(tree, TargetOf(a, sources[k]))
      {
        if !There(tree, TargetOf(a, sources[j])) {
          return false;
        }
      }
      there := true;
    }

    method IsReady(actions: seq<Action>) returns (ready: bool)
      ensures ready == Ready(tree, actions, listing)
      ensures ready <==>
              && Supplied(tree, actions, listing)
              && forall step | step in Plan(tree, actions, listing) :: step.target == [] || step.target in tree
    {
      ReadyIff(tree, actions, listing);
      for i := 0 to |actions|
        invariant forall k | 0 <= k < i :: ReadyFor(tree, actions[k], listing)
      {
        var sources := Sources(tree, actions[i].source, listing);
        var there := AllThere(actions[i], sources);
        if (actions[i].required && sources == []) || !there {
          assert !ReadyFor(tree, actions[i], listing);
          return false;
        }
      }
      ready := true;
    }

    method Clean(actions: seq<Action>, content: Path, downloads: Path)
      modifies this
      ensures tree == Cleanup(old(tree), actions, listing, content, downloads)
    {
      for i := 0 to |actions|
        invariant CleanActions(old(tree), actions, listing) == CleanActions(tree, actions[i..], listing)
      {
        assert actions[i..][0] == actions[i] && actions[i..][1..] == actions[i + 1..];
        var targets := CleanupTargets(tree, actions[i], listing);
        ghost var before := tree;
        for j := 0 to |targets|
          invariant RemoveAll(before, targets) == RemoveAll(tree, targets[j..])
        {
          assert targets[j..][0] == targets[j] && targets[j..][1..] == targets[j + 1..];
          tree := Remove(tree, targets[j]);
        }
      }
      tree := Remove(tree, content);
      tree := Remove(tree, downloads);
    }
  }
}
