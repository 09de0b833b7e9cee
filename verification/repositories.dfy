/** The deployment plan and what is derived from it (Sources/Repositories.swift):
    `PlanBuilder`, the `Head` codec, the staleness test `needsUpdate`, the update
    operation built by `makeUpdate`, the process environment of `process(for:)`, and
    `AssetLocator`.

    Git is not called: the repositories on disk are a `GitWorld` mapping a path to what
    Git2Swift would report for it (its remotes and whether fetching them succeeds, its
    branch tips and its head). `URL(string:)` is the parameter `urlParses`.
    `Plan` is a class in the source; since no operation here assigns any of its
    fields, an immutable value models it faithfully. */
module Repositories {
  import opened SwiftCore
  import opened ResultOperation
  import opened OperationQueue

  /** `HabitatError` */
  datatype HabitatError = MissingParameter | NotAGitRepository(url: string) | InvalidConfiguration

  /** The failures of the Git2Swift calls this file makes. */
  datatype GitError =
    | OpenFailed(path: string)
    | RemoteNotFound(name: string)
    | FetchFailed(name: string)
    | BranchNotFound(name: string)
    | HeadUnresolved
    | CheckoutFailed(branch: string)

  /** Swift's `Error` existential, restricted to what can be thrown here. */
  datatype ThrownError = Habitat(habitat: HabitatError) | Git(git: GitError)

  datatype Commit = Commit(hash: string)

  datatype Repository = Repository(url: string, branch: string)

  datatype Script = Script(url: string)

  /** `Plan.Head` */
  datatype Head = NotYetCheckedOut | AtCommit(commit: Commit)

  datatype Plan = Plan(
    name: string,
    repository: Repository,
    head: Head,
    build: Script,
    launch: Script,
    environment: map<string, string>)

  /** `Repository(url:branch:)`, whose `branch` defaults to "master". */
  function NewRepository(url: string, branch: Optional<string>): (r: Repository)
    ensures r.url == url
    ensures branch.None? ==> r.branch == "master"
    ensures branch.Some? ==> r.branch == branch.value
  {
    Repository(url, OrElse(branch, "master"))
  }

  /** `Plan(name:repository:build:launch:environment:)`: a plan not yet checked out. */
  function NewPlan(name: string, repository: Repository, build: Script, launch: Script,
                   environment: map<string, string>): (p: Plan)
    ensures p.head == NotYetCheckedOut
    ensures p.name == name && p.repository == repository && p.environment == environment
    ensures p.build == build && p.launch == launch
  {
    Plan(name, repository, NotYetCheckedOut, build, launch, environment)
  }

  // ---------------------------------------------------------------------------
  // PlanBuilder

  datatype PlanBuilder = PlanBuilder(
    name: Optional<string>,
    repository: Optional<Repository>,
    head: Optional<Commit>,
    build: Optional<Script>,
    launch: Optional<Script>,
    environment: Optional<map<string, string>>)

  const EmptyBuilder := PlanBuilder(None, None, None, None, None, None)

  function SetName(b: PlanBuilder, name: string): (r: PlanBuilder)
    ensures r.name == Some(name) && r.(name := b.name) == b
  {
    b.(name := Some(name))
  }

  function SetRepository(b: PlanBuilder, repository: Repository): (r: PlanBuilder)
    ensures r.repository == Some(repository) && r.(repository := b.repository) == b
  {
    b.(repository := Some(repository))
  }

  function SetHead(b: PlanBuilder, head: Commit): (r: PlanBuilder)
    ensures r.head == Some(head) && r.(head := b.head) == b
  {
    b.(head := Some(head))
  }

  function SetBuild(b: PlanBuilder, build: Script): (r: PlanBuilder)
    ensures r.build == Some(build) && r.(build := b.build) == b
  {
    b.(build := Some(build))
  }

  function SetLaunch(b: PlanBuilder, launch: Script): (r: PlanBuilder)
    ensures r.launch == Some(launch) && r.(launch := b.launch) == b
  {
    b.(launch := Some(launch))
  }

  function SetEnvironment(b: PlanBuilder, environment: map<string, string>): (r: PlanBuilder)
    ensures r.environment == Some(environment) && r.(environment := b.environment) == b
  {
    b.(environment := Some(environment))
  }

  /** `make()`: fails with `missingParameter` exactly when a required field is unset;
      `head` is optional and defaults to not-yet-checked-out. */
  function Make(b: PlanBuilder): (r: Throwing<Plan, HabitatError>)
    ensures r.Threw? <==>
      b.name.None? || b.repository.None? || b.build.None? || b.launch.None? || b.environment.None?
    ensures r.Threw? ==> r.error == MissingParameter
    ensures r.Returned? ==>
      && r.value.name == b.name.value
      && r.value.repository == b.repository.value
      && r.value.build == b.build.value
      && r.value.launch == b.launch.value
      && r.value.environment == b.environment.value
    ensures r.Returned? && b.head.None? ==> r.value.head == NotYetCheckedOut
    ensures r.Returned? && b.head.Some? ==> r.value.head == AtCommit(b.head.value)
  {
    if b.name.None? || b.repository.None? || b.build.None? || b.launch.None? || b.environment.None? then
      Threw(MissingParameter)
    else
      var head := match b.head
        case Some(c) => AtCommit(c)
        case None => NotYetCheckedOut;
      Returned(Plan(b.name.value, b.repository.value, head, b.build.value, b.launch.value, b.environment.value))
  }

  /** Every plan can be rebuilt through the builder: set each of its fields (the
      commit only when it has one) and `make()` gives it back. */
  lemma BuilderRoundTrip(p: Plan)
    ensures var b := SetEnvironment(SetLaunch(SetBuild(SetRepository(SetName(EmptyBuilder,
                       p.name), p.repository), p.build), p.launch), p.environment);
            Make(if p.head.AtCommit? then SetHead(b, p.head.commit) else b) == Returned(p)
  {
  }

  /** Leaving out any one required setter makes `make()` fail, whatever else is set. */
  lemma MakeNeedsEveryRequiredField(p: Plan, c: Commit)
    ensures Make(SetEnvironment(SetLaunch(SetBuild(SetRepository(SetHead(EmptyBuilder, c),
              p.repository), p.build), p.launch), p.environment)) == Threw(MissingParameter)
    ensures Make(SetEnvironment(SetLaunch(SetBuild(SetName(SetHead(EmptyBuilder, c),
              p.name), p.build), p.launch), p.environment)) == Threw(MissingParameter)
    ensures Make(SetEnvironment(SetLaunch(SetRepository(SetName(SetHead(EmptyBuilder, c),
              p.name), p.repository), p.launch), p.environment)) == Threw(MissingParameter)
    ensures Make(SetEnvironment(SetBuild(SetRepository(SetName(SetHead(EmptyBuilder, c),
              p.name), p.repository), p.build), p.environment)) == Threw(MissingParameter)
    ensures Make(SetLaunch(SetBuild(SetRepository(SetName(SetHead(EmptyBuilder, c),
              p.name), p.repository), p.build), p.launch)) == Threw(MissingParameter)
  {
  }

  // ---------------------------------------------------------------------------
  // Head: a hand-written Codable conformance over a keyed container

  /** `Head.CodingKeys` */
  datatype HeadKey = NotYetCheckedOutKey | CommitKey

  /** The encoded values the container can hold. */
  datatype Encoded = Null | Str(s: string) | Obj(fields: map<string, Encoded>)

  /** A keyed container restricted to `Head.CodingKeys`; other keys are invisible to it. */
  type HeadContainer = map<HeadKey, Encoded>

  /** `Head.CodingError` */
  datatype CodingError = Decoding

  /** The synthesized encoding of `Commit`: one "hash" field. */
  function EncodeCommit(c: Commit): Encoded
  {
    Obj(map["hash" := Str(c.hash)])
  }

  /** The synthesized decoding of `Commit`: an object whose "hash" is a string. */
  function DecodeCommit(v: Encoded): Optional<Commit>
  {
    if v.Obj? && "hash" in v.fields && v.fields["hash"].Str? then Some(Commit(v.fields["hash"].s)) else None
  }

  /** `Head.isNotYetCheckedOut` */
  predicate IsNotYetCheckedOut(h: Head)
  {
    h == NotYetCheckedOut
  }

  /** `encode(to:)`: `nil` under `notYetCheckedOut`, or the commit under `commit`. */
  function EncodeHead(h: Head): (c: HeadContainer)
    ensures |c.Keys| == 1
    ensures IsNotYetCheckedOut(h) <==> NotYetCheckedOutKey in c
  {
    match h
    case NotYetCheckedOut => map[NotYetCheckedOutKey := Null]
    case AtCommit(commit) => map[CommitKey := EncodeCommit(commit)]
  }

  /** `init(from:)`: the presence of `notYetCheckedOut`, whatever its value, wins over
      `commit`; a `commit` that does not decode is an error, not a fallback. */
  function DecodeHead(c: HeadContainer): (r: Throwing<Head, CodingError>)
    ensures NotYetCheckedOutKey in c ==> r == Returned(NotYetCheckedOut)
    ensures r.Threw? <==> NotYetCheckedOutKey !in c && (CommitKey !in c || DecodeCommit(c[CommitKey]).None?)
    ensures r.Returned? && NotYetCheckedOutKey !in c ==> r.value == AtCommit(DecodeCommit(c[CommitKey]).value)
  {
    if NotYetCheckedOutKey in c then Returned(NotYetCheckedOut)
    else if CommitKey in c && DecodeCommit(c[CommitKey]).Some? then Returned(AtCommit(DecodeCommit(c[CommitKey]).value))
    else Threw(Decoding)
  }

  /** Decoding what was encoded gives the same head back, for both cases. */
  lemma HeadRoundTrip(h: Head)
    ensures DecodeHead(EncodeHead(h)) == Returned(h)
  {
    if h.AtCommit? {
      var e := EncodeCommit(h.commit);
      assert "hash" in e.fields && e.fields["hash"] == Str(h.commit.hash);
    }
  }

  /** A container with neither key, or with only an undecodable commit, is rejected. */
  lemma DecodeHeadRejects(v: Encoded)
    requires DecodeCommit(v).None?
    ensures DecodeHead(map[]) == Threw(Decoding)
    ensures DecodeHead(map[CommitKey := v]) == Threw(Decoding)
    ensures DecodeHead(map[CommitKey := v, NotYetCheckedOutKey := v]) == Returned(NotYetCheckedOut)
  {
  }

  // ---------------------------------------------------------------------------
  // Git as an oracle

  /** `oid`, whose `sha()` may be `nil`. */
  datatype Oid = Oid(sha: Optional<string>)

  /** What Git2Swift reports about one repository on disk: for each remote whether
      fetching it succeeds, the target commit of each branch after the fetch, the
      target commit of the head if it resolves, and the branches whose checkout
      fails (a dirty working tree, a locked index). */
  datatype LocalRepo = LocalRepo(remotes: map<string, bool>, branches: map<string, Oid>, head: Optional<Oid>,
                                 failingCheckouts: set<string>)

  /** The repositories that `openRepository(at:)` can open, by path. */
  type GitWorld = map<string, LocalRepo>

  /** `RepositoryManager().openRepository(at:)` */
  function Open(world: GitWorld, path: string): (r: Throwing<LocalRepo, ThrownError>)
    ensures r.Returned? <==> path in world
    ensures r.Returned? ==> r.value == world[path]
  {
    if path in world then Returned(world[path]) else Threw(Git(OpenFailed(path)))
  }

  /** Every Git query of `isMostRecent(in:)` succeeds and both SHAs are known. */
  ghost predicate ShasAvailable(repository: Repository, world: GitWorld)
  {
    && repository.url in world
    && "origin" in world[repository.url].remotes
    && world[repository.url].remotes["origin"]
    && repository.branch in world[repository.url].branches
    && world[repository.url].head.Some?
    && world[repository.url].branches[repository.branch].sha.Some?
    && world[repository.url].head.value.sha.Some?
  }

  /** `Commit.isMostRecent(in:)`: open the repository at its URL, fetch "origin", and
      compare the branch tip with the local head. The commit's own hash is not read. */
  function IsMostRecent(commit: Commit, repository: Repository, world: GitWorld): (r: Throwing<bool, ThrownError>)
    ensures r.Returned? <==> ShasAvailable(repository, world)
    ensures r.Returned? ==>
      (r.value <==> world[repository.url].branches[repository.branch].sha.value
                    == world[repository.url].head.value.sha.value)
  {
    match Open(world, repository.url)
    case Threw(e) => Threw(e)
    case Returned(repo) =>
      if "origin" !in repo.remotes then Threw(Git(RemoteNotFound("origin")))
      else if !repo.remotes["origin"] then Threw(Git(FetchFailed("origin")))
      else if repository.branch !in repo.branches then Threw(Git(BranchNotFound(repository.branch)))
      else if repo.head.None? then Threw(Git(HeadUnresolved))
      else
        var branchTip := repo.branches[repository.branch];
        var headTip := repo.head.value;
        if branchTip.sha.None? || headTip.sha.None? then Threw(Habitat(NotAGitRepository(repository.url)))
        else Returned(branchTip.sha.value == headTip.sha.value)
  }

  /** `Plan.needsUpdate`: `(try? commit.isMostRecent(in: repository)) ?? false` once checked out. */
  function NeedsUpdate(p: Plan, world: GitWorld): bool
  {
    match p.head
    case NotYetCheckedOut => true
    case AtCommit(c) => OrElse(Try(IsMostRecent(c, p.repository, world)), false)
  }

  /** The staleness decision as written: a plan never checked out is stale without
      consulting Git; a checked-out plan is stale exactly when every Git query on the
      repository at the plan's remote URL succeeds and that repository's fetched
      branch tip EQUALS its own head, and any Git failure makes it not stale. */
  lemma NeedsUpdateDecision(p: Plan, world: GitWorld)
    ensures p.head.NotYetCheckedOut? ==> NeedsUpdate(p, world)
    ensures p.head.AtCommit? && !ShasAvailable(p.repository, world) ==> !NeedsUpdate(p, world)
    ensures p.head.AtCommit? && ShasAvailable(p.repository, world) ==>
      (NeedsUpdate(p, world) <==>
        world[p.repository.url].branches[p.repository.branch].sha.value
        == world[p.repository.url].head.value.sha.value)
  {
  }

  /** The decision does not depend on the commit recorded in the plan, nor on the Git
      world when the plan was never checked out. */
  lemma NeedsUpdateIgnoresRecordedCommit(p: Plan, c1: Commit, c2: Commit, world: GitWorld, other: GitWorld)
    ensures NeedsUpdate(p.(head := AtCommit(c1)), world) == NeedsUpdate(p.(head := AtCommit(c2)), world)
    ensures NeedsUpdate(p.(head := NotYetCheckedOut), world) == NeedsUpdate(p.(head := NotYetCheckedOut), other)
  {
  }

  /** Consequently a checked-out plan whose remote repository (the one at
      `repository.url`, which is what `isMostRecent(in:)` opens) has its head at the
      branch tip is reported stale. */
  lemma UpToDatePlanIsStale(p: Plan, world: GitWorld, sha: string)
    requires p.head == AtCommit(Commit(sha))
    requires p.repository.url in world
    requires world[p.repository.url] == LocalRepo(map["origin" := true],
               map[p.repository.branch := Oid(Some(sha))], Some(Oid(Some(sha))), {})
    ensures NeedsUpdate(p, world)
  {
  }

  /** `isMostRecent(in:)` opens the repository at the plan's remote URL, not the
      working copy. When nothing can be opened there (a remote that is not a local
      path), a checked-out plan is never stale, however far its working copy lags. */
  lemma UnopenableRemoteNeverStale(p: Plan, world: GitWorld)
    requires p.head.AtCommit?
    requires p.repository.url !in world
    ensures !NeedsUpdate(p, world)
  {
  }

  // ---------------------------------------------------------------------------
  // AssetLocator

  /** `AssetLocator`: a prefix and the path of its working copy. */
  datatype AssetLocator = AssetLocator(prefix: string, repository: string)

  function RepositoryPath(prefix: string): string
  {
    "~/" + prefix + "/Repository"
  }

  /** `AssetLocator(prefix:)`: `nil` when the path is not a valid URL. */
  function LocatorForPrefix(prefix: string, urlParses: string -> bool): (r: Optional<AssetLocator>)
    ensures r.Some? <==> urlParses("~/" + prefix + "/Repository")
    ensures r.Some? ==> r.value.prefix == prefix && r.value.repository == "~/" + prefix + "/Repository"
  {
    var path := RepositoryPath(prefix);
    if urlParses(path) then Some(AssetLocator(prefix, path)) else None
  }

  /** `AssetLocator(plan:)`: the plan's name is the prefix. */
  function LocatorForPlan(p: Plan, urlParses: string -> bool): (r: Optional<AssetLocator>)
    ensures r.Some? <==> urlParses("~/" + p.name + "/Repository")
    ensures r.Some? ==> r.value.prefix == p.name && r.value.repository == "~/" + p.name + "/Repository"
  {
    LocatorForPrefix(p.name, urlParses)
  }

  /** Distinct prefixes get distinct working copies: the path determines the prefix. */
  lemma RepositoryPathInjective(a: string, b: string)
    requires RepositoryPath(a) == RepositoryPath(b)
    ensures a == b
  {
    var pa := RepositoryPath(a);
    assert |pa| == |a| + 13;
    assert |a| == |b|;
    forall i | 0 <= i < |a|
      ensures a[i] == b[i]
    {
      assert pa[i + 2] == a[i];
      assert RepositoryPath(b)[i + 2] == b[i];
    }
  }

  // ---------------------------------------------------------------------------
  // makeUpdate

  /** The operations `makeUpdate` creates, ids from `base` up to (not including) `next`;
      `root` is the update operation itself. */
  datatype UpdateOperation = UpdateOperation(root: OpId, tasks: map<OpId, Task>, next: OpId)

  /** `makeUpdate(_:)`: an update operation that checks the branch out in the
      locator's working copy, depending on a clone operation exactly when the plan was
      never checked out. The clone gets id `base`, the update the following one. */
  function MakeUpdate(p: Plan, locator: AssetLocator, base: OpId): (r: Optional<UpdateOperation>)
    ensures r.Some?
    ensures base <= r.value.root < r.value.next
    ensures forall id :: id in r.value.tasks <==> base <= id < r.value.next
    ensures WellFormed(r.value.tasks)
    ensures forall id :: id in r.value.tasks ==> r.value.tasks[id].state == Ready
    ensures r.value.tasks[r.value.root].kind == Checkout(locator.repository, p.repository.branch)
    ensures |r.value.tasks[r.value.root].dependencies| == (if IsNotYetCheckedOut(p.head) then 1 else 0)
    ensures IsNotYetCheckedOut(p.head) ==>
      r.value.tasks[r.value.tasks[r.value.root].dependencies[0]]
        == Task(Clone(p.repository.url, locator.repository), [], Ready)
    ensures r.value.next == r.value.root + 1
    ensures forall id :: id in r.value.tasks && id != r.value.root ==> id in r.value.tasks[r.value.root].dependencies
  {
    var update := Task(Checkout(locator.repository, p.repository.branch), [], Ready);
    if IsNotYetCheckedOut(p.head) then
      var clone := Task(Clone(p.repository.url, locator.repository), [], Ready);
      Some(UpdateOperation(base + 1, map[base := clone, base + 1 := update.(dependencies := [base])], base + 2))
    else
      Some(UpdateOperation(base, map[base := update], base + 1))
  }

  /** `clone?.result.value`: the repository the clone operation produced, if there is a
      clone operation and it succeeded. */
  function ClonedRepository(clone: Optional<Operation<LocalRepo, ThrownError>>): (r: Optional<LocalRepo>)
    ensures r.Some? <==> clone.Some? && clone.value.result.Ok?
    ensures r.Some? ==> r.value == clone.value.result.value
  {
    match clone
    case None => None
    case Some(op) => ValueOf(op.result)
  }

  /** The update operation's block: use the cloned repository, or else open the
      working copy at the locator's path; then resolve its head, look the plan's
      branch up and check it out. The operation's own value is `()` and no field of
      the plan is assigned, `head` included; the model returns the repository as the
      checkout leaves it, its head moved to the branch tip. */
  function CheckoutBlock(p: Plan, locator: AssetLocator, cloned: Optional<LocalRepo>, world: GitWorld)
    : (r: Throwing<LocalRepo, ThrownError>)
    ensures cloned.Some? ==> (r.Returned? <==> CanCheckOut(cloned.value, p.repository.branch))
    ensures cloned.None? ==>
      (r.Returned? <==> locator.repository in world && CanCheckOut(world[locator.repository], p.repository.branch))
    ensures cloned.None? && locator.repository !in world ==> r == Threw(Git(OpenFailed(locator.repository)))
    ensures r.Threw? && r.error.Git? && r.error.git.CheckoutFailed? ==> r.error.git.branch == p.repository.branch
    ensures r.Returned? ==>
      var before := if cloned.Some? then cloned.value else world[locator.repository];
      && r.value.head == Some(before.branches[p.repository.branch])
      && r.value == before.(head := r.value.head)
  {
    var repo := match cloned
      case Some(c) => Returned(c)
      case None => Open(world, locator.repository);
    match repo
    case Threw(e) => Threw(e)
    case Returned(repo) =>
      if repo.head.None? then Threw(Git(HeadUnresolved))
      else if p.repository.branch !in repo.branches then Threw(Git(BranchNotFound(p.repository.branch)))
      else if p.repository.branch in repo.failingCheckouts then Threw(Git(CheckoutFailed(p.repository.branch)))
      else Returned(repo.(head := Some(repo.branches[p.repository.branch])))
  }

  /** `repo.head().checkout(branch: repo.branches.get(name:))` succeeds: the head
      resolves, the branch exists and checking it out does not fail. */
  predicate CanCheckOut(repo: LocalRepo, branch: string)
  {
    repo.head.Some? && branch in repo.branches && branch !in repo.failingCheckouts
  }

  /** A failed clone does not stop the update: its block falls back to opening the
      working copy, exactly as if there had been no clone operation. */
  lemma FailedCloneFallsBackToOpen(p: Plan, locator: AssetLocator, clone: Operation<LocalRepo, ThrownError>,
                                   world: GitWorld)
    requires clone.result.Error?
    ensures CheckoutBlock(p, locator, ClonedRepository(Some(clone)), world)
         == CheckoutBlock(p, locator, ClonedRepository(None), world)
  {
  }

  // ---------------------------------------------------------------------------
  // process(for:)

  /** The parts of a `Process` that `process(for:)` sets and the model keeps. */
  datatype ProcessSpec = ProcessSpec(launchPath: string, arguments: seq<string>, currentDirectory: string,
                                     environment: map<string, string>)

  /** The `for (key, value) in self.environment { environment[key] = value }` loop:
      the plan's variables override the ambient ones. */
  method MergeEnvironment(ambient: map<string, string>, overrides: map<string, string>)
    returns (env: map<string, string>)
    ensures env.Keys == ambient.Keys + overrides.Keys
    ensures forall k :: k in overrides ==> env[k] == overrides[k]
    ensures forall k :: k in ambient && k !in overrides ==> env[k] == ambient[k]
  {
    env := ambient;
    var remaining := overrides.Keys;
    while remaining != {}
      invariant remaining <= overrides.Keys
      invariant env.Keys == ambient.Keys + (overrides.Keys - remaining)
      invariant forall k :: k in overrides && k !in remaining ==> env[k] == overrides[k]
      invariant forall k :: k in env && k !in overrides ==> env[k] == ambient[k]
      invariant forall k :: k in remaining && k !in ambient ==> k !in env
      invariant forall k :: k in remaining && k in ambient ==> env[k] == ambient[k]
      decreases remaining
    {
      var k :| k in remaining;
      env := env[k := overrides[k]];
      remaining := remaining - {k};
    }
  }

  /** `process(for:)`: run the script through `/usr/bin/env`, in the directory named by
      the plan's repository URL, with the merged environment. */
  method ProcessFor(p: Plan, script: Script, ambient: map<string, string>) returns (process: ProcessSpec)
    ensures process.launchPath == "/usr/bin/env"
    ensures process.arguments == [script.url]
    ensures process.currentDirectory == p.repository.url
    ensures process.environment.Keys == ambient.Keys + p.environment.Keys
    ensures forall k :: k in p.environment ==> process.environment[k] == p.environment[k]
    ensures forall k :: k in ambient && k !in p.environment ==> process.environment[k] == ambient[k]
  {
    var env := MergeEnvironment(ambient, p.environment);
    process := ProcessSpec("/usr/bin/env", [script.url], p.repository.url, env);
  }

  /** `buildProcess` */
  method BuildProcess(p: Plan, ambient: map<string, string>) returns (process: ProcessSpec)
    ensures process.launchPath == "/usr/bin/env"
    ensures process.arguments == [p.build.url]
    ensures process.currentDirectory == p.repository.url
    ensures process.environment.Keys == ambient.Keys + p.environment.Keys
    ensures forall k :: k in p.environment ==> process.environment[k] == p.environment[k]
    ensures forall k :: k in ambient && k !in p.environment ==> process.environment[k] == ambient[k]
  {
    process := ProcessFor(p, p.build, ambient);
  }

  /** `launchProcess` */
  method LaunchProcess(p: Plan, ambient: map<string, string>) returns (process: ProcessSpec)
    ensures process.launchPath == "/usr/bin/env"
    ensures process.arguments == [p.launch.url]
    ensures process.currentDirectory == p.repository.url
    ensures process.environment.Keys == ambient.Keys + p.environment.Keys
    ensures forall k :: k in p.environment ==> process.environment[k] == p.environment[k]
    ensures forall k :: k in ambient && k !in p.environment ==> process.environment[k] == ambient[k]
  {
    process := ProcessFor(p, p.launch, ambient);
  }
}
