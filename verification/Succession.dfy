/** Which snapshot may replace which, and what that keeps over every run of refreshes. */
module Succession {
  import opened Wrappers
  import opened ByteStrings
  import opened VfsPaths
  import opened Membership
  import opened TreeContract
  import opened TreeLookup

  datatype Plan = Install | RetainCurrent

  datatype RefreshError =
    | IdentityChanged
    | WorkspaceGenerationRegressed
    | MembershipChanged
    | ConflictingSnapshots

  function PlanSuccession(current: Option<CachedTree>, next: CachedTree): Result<Plan, RefreshError>
    requires ROOT in next.directories && (current.Some? ==> ROOT in current.value.directories)
  {
    if current.None? then Ok(Install)
    else
      var c := current.value;
      if next.binding.repositoryId != c.binding.repositoryId || next.binding.workspaceId != c.binding.workspaceId then
        Err(IdentityChanged)
      else if next.version > c.version then
        var cRoot, nRoot := c.directories[ROOT].mutation, next.directories[ROOT].mutation;
        if nRoot.workspaceGeneration < cRoot.workspaceGeneration then Err(WorkspaceGenerationRegressed)
        else if nRoot.membership != cRoot.membership && nRoot.workspaceGeneration == cRoot.workspaceGeneration then
          Err(MembershipChanged)
        else Ok(Install)
      else if next.version == c.version then
        if next.etag == c.etag && next.binding == c.binding then Ok(RetainCurrent) else Err(ConflictingSnapshots)
      else Ok(RetainCurrent)
  }

  /// Entity tags

  const QUOTE: byte := 34

  /** `HeaderValue::to_str` accepts visible ASCII and tab. */
  predicate VisibleAscii(value: Bytes) {
    forall i :: 0 <= i < |value| ==> 32 <= value[i] < 127 || value[i] == 9
  }

  function IfNoneMatchValue(etag: Bytes): Bytes {
    [QUOTE] + etag + [QUOTE]
  }

  /** Unquote a strong entity tag (section 8.8.3 of RFC 9110). */
  function ParseEtagHeader(header: Option<Bytes>): Option<Bytes> {
    if header.None? || !VisibleAscii(header.value) then None
    else
      var raw := header.value;
      if |raw| <= 2 || raw[0] != QUOTE || raw[|raw| - 1] != QUOTE then None
      else Some(raw[1..|raw| - 1])
  }

  /** A header is read as a tag exactly when it is that tag's own strong quoted form. */
  lemma EtagRoundTrip(header: Bytes, etag: Bytes)
    ensures ParseEtagHeader(Some(header)) == Some(etag) <==>
            header == [34] + etag + [34] && etag != [] && forall b :: b in etag ==> b == 9 || 32 <= b <= 126
    ensures IfNoneMatchValue(etag) == [34] + etag + [34]
  {
    var quoted := [34] + etag + [34];
    if header == quoted && forall b :: b in etag ==> b == 9 || 32 <= b <= 126 {
      assert quoted[1..|quoted| - 1] == etag;
      forall i | 0 <= i < |quoted| ensures 32 <= quoted[i] < 127 || quoted[i] == 9 {
        if 0 < i < |quoted| - 1 { assert quoted[i] == etag[i - 1] && etag[i - 1] in etag; }
      }
    }
    if ParseEtagHeader(Some(header)) == Some(etag) {
      forall b | b in etag ensures b == 9 || 32 <= b <= 126 {
        var i :| 0 <= i < |etag| && etag[i] == b;
        assert header[i + 1] == b;
      }
      assert header == [header[0]] + header[1..|header| - 1] + [header[|header| - 1]];
    }
  }

  /// One refresh

  /** `local` is whether the answer still names the repository and workspace of the local manifest. */
  datatype Response =
    | Unreachable
    | Refused
    | NotModified(local: bool)
    | Document(header: Option<Bytes>, body: Option<WireSnapshot>, local: bool)

  /** A response arriving, with the entity tag its request carried: captured earlier, so possibly superseded. */
  datatype Completion = Completion(cachedEtag: Option<Bytes>, response: Response)

  /** The document passes every check before the snapshot is looked at. */
  predicate Presentable(header: Option<Bytes>, body: Option<WireSnapshot>, local: bool) {
    && ParseEtagHeader(header).Some?
    && body.Some?
    && body.value.identity == ParseEtagHeader(header)
    && local
    && Acceptable(body.value.artifacts)
  }

  ghost predicate Indexed(tree: Option<CachedTree>, sha: Bytes -> Hash256) {
    tree.Some? ==> Validated(tree.value, sha)
  }

  ghost predicate Installs(
    sha: Bytes -> Hash256, before: Option<CachedTree>, next: CachedTree, after: Option<CachedTree>, ok: bool)
  {
    && ROOT in next.directories && (before.Some? ==> ROOT in before.value.directories)
    && var plan := PlanSuccession(before, next);
       && ok == plan.Ok?
       && after == if plan == Ok(Install) then Some(next) else before
  }

  /** What one completed refresh does to the installed snapshot. */
  ghost predicate Refreshes(
    sha: Bytes -> Hash256, before: Option<CachedTree>, c: Completion, after: Option<CachedTree>, ok: bool)
  {
    match c.response
    case Unreachable => !ok && after == before
    case Refused => !ok && after == before
    case NotModified(local) =>
      && after == before
      && ok == (c.cachedEtag.Some? && before.Some? && before.value.etag == c.cachedEtag.value && local)
    case Document(header, body, local) =>
      if Presentable(header, body, local)
      then exists next :: IsTreeOf(next, sha, body.value) && Installs(sha, before, next, after, ok)
      else !ok && after == before
  }

  /** ... whether or not it succeeded. */
  ghost predicate Completes(sha: Bytes -> Hash256, before: Option<CachedTree>, c: Completion, after: Option<CachedTree>) {
    Refreshes(sha, before, c, after, true) || Refreshes(sha, before, c, after, false)
  }

  /// Runs

  /** `states[i + 1]` is what the i-th completion left of `states[i]`; nothing resets the cache. */
  ghost predicate RefreshRun(sha: Bytes -> Hash256, states: seq<Option<CachedTree>>, completions: seq<Completion>) {
    && |states| == |completions| + 1
    && states[0].None?
    && forall i :: 0 <= i < |completions| ==> Completes(sha, states[i], completions[i], states[i + 1])
  }

  /** Buffers fit in memory and SHA-256 does not collide on the roots of this run. */
  ghost predicate Plausible(sha: Bytes -> Hash256, states: seq<Option<CachedTree>>) {
    && (forall i :: 0 <= i < |states| && states[i].Some? ==> TreeSized(states[i].value))
    && (forall i, j :: 0 <= i < |states| && 0 <= j < |states| && states[i].Some? && states[j].Some? ==>
          NoCollision(sha, RootStream(states[i].value), RootStream(states[j].value)))
  }

  /** What an installed snapshot owes every later one. */
  ghost predicate SucceededBy(a: CachedTree, b: CachedTree) {
    && a.binding.repositoryId == b.binding.repositoryId
    && a.binding.workspaceId == b.binding.workspaceId
    && a.version <= b.version
    && (a.version == b.version ==> a == b)
    && a.binding.workspaceGeneration <= b.binding.workspaceGeneration
    && (a.binding.workspaceGeneration == b.binding.workspaceGeneration ==> a.byPath == b.byPath)
  }

  /// The decision, on the fields of the two snapshots

  predicate SameAuthority(a: CachedTree, b: CachedTree) {
    a.binding.repositoryId == b.binding.repositoryId && a.binding.workspaceId == b.binding.workspaceId
  }

  /** A newer version of one workspace, whose generation does not fall and covers any change of the artifacts. */
  predicate Replaces(next: CachedTree, current: CachedTree) {
    && SameAuthority(current, next)
    && current.version < next.version
    && current.binding.workspaceGeneration <= next.binding.workspaceGeneration
    && (current.byPath != next.byPath ==> current.binding.workspaceGeneration < next.binding.workspaceGeneration)
  }

  /** No successor, and no older or identical answer either: something is wrong with the authority. */
  predicate Contradicts(next: CachedTree, current: CachedTree) {
    || !SameAuthority(current, next)
    || (current.version < next.version &&
        (next.binding.workspaceGeneration < current.binding.workspaceGeneration ||
         (next.binding.workspaceGeneration == current.binding.workspaceGeneration && current.byPath != next.byPath)))
    || (current.version == next.version && (current.etag != next.etag || current.binding != next.binding))
  }

  /** What must become of the installed snapshot when the valid `next` arrives. */
  ghost predicate AsDecided(before: Option<CachedTree>, next: CachedTree, after: Option<CachedTree>, ok: bool) {
    if before.None? || Replaces(next, before.value) then ok && after == Some(next)
    else after == before && ok == !Contradicts(next, before.value)
  }

  /** Both are validated, and SHA-256 does not collide on their roots. */
  ghost predicate Comparable(sha: Bytes -> Hash256, before: Option<CachedTree>, next: CachedTree) {
    && Validated(next, sha)
    && (before.Some? ==>
          && Validated(before.value, sha) && TreeSized(before.value) && TreeSized(next)
          && NoCollision(sha, RootStream(before.value), RootStream(next)))
  }

  /** Every snapshot indexes its root, with the generation of its binding and a membership that pins its artifacts. */
  ghost predicate Rooted(c: CachedTree, next: CachedTree) {
    && ROOT in c.directories && ROOT in next.directories
    && c.directories[ROOT].mutation.workspaceGeneration == c.binding.workspaceGeneration
    && next.directories[ROOT].mutation.workspaceGeneration == next.binding.workspaceGeneration
    && (c.directories[ROOT].mutation.membership == next.directories[ROOT].mutation.membership <==> c.byPath == next.byPath)
  }

  lemma BothRooted(sha: Bytes -> Hash256, c: CachedTree, next: CachedTree)
    requires Comparable(sha, Some(c), next)
    ensures Rooted(c, next)
  {
    RootMembershipPinsArtifacts(c, next, sha);
    RootGeneration(c, sha);
    RootGeneration(next, sha);
  }

  /** Installed, refused for each of the four causes, or retained: exactly when the fields say so. */
  predicate Decision(plan: Result<Plan, RefreshError>, c: CachedTree, next: CachedTree) {
    && (plan == Ok(Install) <==> Replaces(next, c))
    && (plan.Err? <==> Contradicts(next, c))
    && (plan == Err(IdentityChanged) <==> !SameAuthority(c, next))
    && (plan == Err(WorkspaceGenerationRegressed) <==>
          && SameAuthority(c, next) && c.version < next.version
          && next.binding.workspaceGeneration < c.binding.workspaceGeneration)
    && (plan == Err(MembershipChanged) <==>
          && SameAuthority(c, next) && c.version < next.version
          && next.binding.workspaceGeneration == c.binding.workspaceGeneration && c.byPath != next.byPath)
    && (plan == Err(ConflictingSnapshots) <==>
          && SameAuthority(c, next) && c.version == next.version
          && (c.etag != next.etag || c.binding != next.binding))
    && (plan == Ok(RetainCurrent) <==>
          && SameAuthority(c, next)
          && (next.version < c.version ||
              (next.version == c.version && next.etag == c.etag && next.binding == c.binding)))
  }

  lemma RootedDecision(c: CachedTree, next: CachedTree)
    requires Rooted(c, next)
    ensures Decision(PlanSuccession(Some(c), next), c, next)
  {
  }

  lemma SuccessionDecision(sha: Bytes -> Hash256, c: CachedTree, next: CachedTree)
    requires Comparable(sha, Some(c), next)
    ensures ROOT in c.directories && ROOT in next.directories && Decision(PlanSuccession(Some(c), next), c, next)
  {
    BothRooted(sha, c, next);
    RootedDecision(c, next);
  }

  lemma InstallsAsDecided(
    sha: Bytes -> Hash256, before: Option<CachedTree>, next: CachedTree, after: Option<CachedTree>, ok: bool)
    requires Installs(sha, before, next, after, ok) && Comparable(sha, before, next)
    ensures AsDecided(before, next, after, ok)
  {
    if before.Some? { SuccessionDecision(sha, before.value, next); }
  }

  /** A presentable document that may replace the installed snapshot leaves exactly its own tree installed. */
  lemma RefreshDecides(
    sha: Bytes -> Hash256, before: Option<CachedTree>, c: Completion, after: Option<CachedTree>, ok: bool, next: CachedTree)
    requires Refreshes(sha, before, c, after, ok) && c.response.Document?
    requires Presentable(c.response.header, c.response.body, c.response.local)
    requires IsTreeOf(next, sha, c.response.body.value) && Comparable(sha, before, next)
    ensures AsDecided(before, next, after, ok)
  {
    var tree :| IsTreeOf(tree, sha, c.response.body.value) && Installs(sha, before, tree, after, ok);
    TreeUnique(tree, next, sha, c.response.body.value);
    InstallsAsDecided(sha, before, next, after, ok);
  }

  lemma InstalledIsSuccessor(sha: Bytes -> Hash256, before: CachedTree, next: CachedTree)
    requires Validated(before, sha) && Validated(next, sha)
    requires TreeSized(before) && TreeSized(next) && NoCollision(sha, RootStream(before), RootStream(next))
    requires ROOT in before.directories && ROOT in next.directories
    requires PlanSuccession(Some(before), next) == Ok(Install)
    ensures before.version < next.version && SucceededBy(before, next)
  {
    SuccessionDecision(sha, before, next);
  }

  lemma RootGeneration(tree: CachedTree, sha: Bytes -> Hash256)
    requires Validated(tree, sha) && ROOT in tree.directories
    ensures tree.directories[ROOT].mutation.workspaceGeneration == tree.binding.workspaceGeneration
  {
  }

  lemma TreeOfIsValidated(tree: CachedTree, sha: Bytes -> Hash256, snapshot: WireSnapshot)
    requires IsTreeOf(tree, sha, snapshot)
    ensures Validated(tree, sha) && ROOT in tree.directories
  {
    assert IsDirectoryOf(ROOT, tree.byPath);
  }

  /** A failed refresh leaves the snapshot untouched; a successful one keeps it or installs a validated one. */
  lemma RefreshKeepsOrInstalls(
    sha: Bytes -> Hash256, before: Option<CachedTree>, c: Completion, after: Option<CachedTree>, ok: bool)
    requires Refreshes(sha, before, c, after, ok) && Indexed(before, sha)
    ensures !ok ==> after == before
    ensures Indexed(after, sha)
    ensures after == before
         || (after.Some? && ROOT in after.value.directories && (before.Some? ==> ROOT in before.value.directories)
             && PlanSuccession(before, after.value) == Ok(Install))
  {
    if c.response.Document? && Presentable(c.response.header, c.response.body, c.response.local) {
      var next :| IsTreeOf(next, sha, c.response.body.value) && Installs(sha, before, next, after, ok);
      TreeOfIsValidated(next, sha, c.response.body.value);
    }
  }

  lemma CompletionKeepsIndexed(
    sha: Bytes -> Hash256, before: Option<CachedTree>, c: Completion, after: Option<CachedTree>)
    requires Completes(sha, before, c, after) && Indexed(before, sha)
    ensures Indexed(after, sha)
  {
    RefreshKeepsOrInstalls(sha, before, c, after, Refreshes(sha, before, c, after, true));
  }

  lemma {:induction false} RunIsIndexed(
    sha: Bytes -> Hash256, states: seq<Option<CachedTree>>, completions: seq<Completion>, i: nat)
    requires RefreshRun(sha, states, completions) && i < |states|
    ensures Indexed(states[i], sha)
  {
    if i > 0 {
      RunIsIndexed(sha, states, completions, i - 1);
      assert Completes(sha, states[i - 1], completions[i - 1], states[i - 1 + 1]);
      CompletionKeepsIndexed(sha, states[i - 1], completions[i - 1], states[i]);
    }
  }

  ghost predicate Forward(a: Option<CachedTree>, b: Option<CachedTree>) {
    a.Some? ==> b.Some? && SucceededBy(a.value, b.value)
  }

  lemma RunStep(sha: Bytes -> Hash256, states: seq<Option<CachedTree>>, completions: seq<Completion>, i: nat)
    requires RefreshRun(sha, states, completions) && Plausible(sha, states) && i < |completions|
    ensures Forward(states[i], states[i + 1])
  {
    RunIsIndexed(sha, states, completions, i);
    var ok := Refreshes(sha, states[i], completions[i], states[i + 1], true);
    RefreshKeepsOrInstalls(sha, states[i], completions[i], states[i + 1], ok);
    if states[i].Some? && states[i + 1] != states[i] {
      InstalledIsSuccessor(sha, states[i].value, states[i + 1].value);
    }
  }

  lemma {:induction false} ForwardChain(states: seq<Option<CachedTree>>, i: nat, j: nat)
    requires i <= j < |states|
    requires forall k :: 0 <= k < |states| - 1 ==> Forward(states[k], states[k + 1])
    ensures Forward(states[i], states[j])
    decreases j
  {
    if i < j {
      ForwardChain(states, i, j - 1);
      assert Forward(states[j - 1], states[j - 1 + 1]);
    }
  }

  /**
   Over any run of refreshes, whatever the server answers: installed versions strictly increase, the
   workspace generation never falls, identity never changes, and any two installed snapshots of one
   workspace generation hold the same artifacts.
   */
  lemma RunsOnlyMoveForward(
    sha: Bytes -> Hash256, states: seq<Option<CachedTree>>, completions: seq<Completion>, i: nat, j: nat)
    requires RefreshRun(sha, states, completions) && Plausible(sha, states)
    requires i <= j < |states| && states[i].Some?
    ensures states[j].Some? && SucceededBy(states[i].value, states[j].value)
  {
    forall k | 0 <= k < |states| - 1 ensures Forward(states[k], states[k + 1]) {
      RunStep(sha, states, completions, k);
    }
    ForwardChain(states, i, j);
  }

  lemma DecidedIsNewest(before: Option<CachedTree>, next: CachedTree, after: Option<CachedTree>, ok: bool)
    requires AsDecided(before, next, after, ok)
    ensures (before.Some? && Contradicts(next, before.value)) || (after.Some? && next.version <= after.value.version)
    ensures before.None? || Replaces(next, before.value) ==> after == Some(next)
  {
  }

  lemma CompletionDecides(
    sha: Bytes -> Hash256, before: Option<CachedTree>, c: Completion, after: Option<CachedTree>, next: CachedTree)
    requires Completes(sha, before, c, after) && c.response.Document?
    requires Presentable(c.response.header, c.response.body, c.response.local)
    requires IsTreeOf(next, sha, c.response.body.value) && Comparable(sha, before, next)
    ensures (before.Some? && Contradicts(next, before.value)) || (after.Some? && next.version <= after.value.version)
    ensures before.None? || Replaces(next, before.value) ==> after == Some(next)
  {
    var ok := Refreshes(sha, before, c, after, true);
    RefreshDecides(sha, before, c, after, ok, next);
    DecidedIsNewest(before, next, after, ok);
  }

  /**
   No valid snapshot is passed over: whatever the server answers before and after, a document that does not
   contradict what is installed when it arrives has its version, or a later one, installed ever after.
   */
  lemma NewestIsInstalled(
    sha: Bytes -> Hash256, states: seq<Option<CachedTree>>, completions: seq<Completion>, k: nat, i: nat, next: CachedTree)
    requires RefreshRun(sha, states, completions) && Plausible(sha, states) && k < i < |states|
    requires completions[k].response.Document?
    requires var d := completions[k].response; Presentable(d.header, d.body, d.local) && IsTreeOf(next, sha, d.body.value)
    requires Comparable(sha, states[k], next)
    ensures (states[k].Some? && Contradicts(next, states[k].value))
         || (states[i].Some? && next.version <= states[i].value.version)
    ensures states[k].None? || Replaces(next, states[k].value) ==> states[k + 1] == Some(next)
  {
    assert Completes(sha, states[k], completions[k], states[k + 1]);
    CompletionDecides(sha, states[k], completions[k], states[k + 1], next);
    if states[k + 1].Some? { RunsOnlyMoveForward(sha, states, completions, k + 1, i); }
  }

  /** What `version` reports: zero until something is installed. */
  function ReportedVersion(tree: Option<CachedTree>): u64 {
    if tree.Some? then tree.value.version else 0
  }

  /** Every answer taken from the installed snapshot is a function of the reported version. */
  lemma AnswersAreAFunctionOfVersion(
    sha: Bytes -> Hash256, states: seq<Option<CachedTree>>, completions: seq<Completion>, i: nat, j: nat)
    requires RefreshRun(sha, states, completions) && Plausible(sha, states)
    requires i <= j < |states|
    ensures ReportedVersion(states[i]) <= ReportedVersion(states[j])
    ensures states[i].Some? && states[j].Some? && ReportedVersion(states[i]) == ReportedVersion(states[j]) ==>
              states[i] == states[j]
  {
    if states[i].Some? {
      RunsOnlyMoveForward(sha, states, completions, i, j);
    }
  }
}
