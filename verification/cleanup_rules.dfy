/** What one cleanup pass means for the composite gateways of the namespace
    (facade-operator-service/controllers/facade_common_controller.go, cleanupDeployments). */
module CleanupRules {
  import opened CustomResources
  import opened Deployments
  import opened ObjectStore
  import opened Wrappers

  /** Some resource names `gateway` as its gateway. */
  ghost predicate Used(gateway: string, crs: CRs) {
    exists id | id in crs :: crs[id].spec.gateway == gateway
  }

  /** Some resource of that name, of either kind, asks to be the master. */
  ghost predicate MasterAlive(name: string, crs: CRs) {
    exists id | id in crs :: crs[id].spec.masterConfiguration && id.name == name
  }

  /** The resource the last-applied annotation names, if it is readable and still there. */
  function LastApplied(d: DeploymentBody, crs: CRs): Result<Option<CR>, Outcome> {
    match GetLastAppliedCR(d)
    case Failure(e) => Failure(e)
    case Success(last) => GetByLastAppliedCr(crs, last)
  }

  /** The annotation of a Deployment whose last-applied resource is gone gets its deleted mark. */
  function Marked(d: DeploymentBody, crs: CRs): DeploymentBody {
    if d.lastApplied.Recorded? && LastApplied(d, crs) == Success(None)
    then WithLastApplied(d, d.lastApplied.last.(deleted := true))
    else d
  }

  ghost function Cleaned(d: DeploymentBody, crs: CRs): DeploymentBody {
    if MasterAlive(MasterCR(d), crs) then Marked(d, crs) else WithoutMasterCR(Marked(d, crs))
  }

  /** The pass can deal with the annotation: it is absent, or it names a resource of a known kind. */
  predicate IsPassable(d: DeploymentBody, crs: CRs) {
    !d.lastApplied.Null? && LastApplied(d, crs).Success?
  }

  /** How the pass ends at an annotation it cannot deal with: marking a nil annotation as deleted panics. */
  function TroubleWith(d: DeploymentBody, crs: CRs): Outcome
    requires !IsPassable(d, crs)
  {
    if d.lastApplied.Null? then Panicked else LastApplied(d, crs).error
  }

  /** A pass stops at a Deployment it would keep but whose annotation it cannot deal with. */
  ghost predicate Blocks(name: string, d: DeploymentBody, crs: CRs) {
    IsMeshRouter(d) && Used(name, crs) && !IsPassable(d, crs)
  }

  /** The Deployments after an error-free pass. */
  ghost function Swept(contents: map<string, Deployment>, crs: CRs): map<string, Deployment> {
    map n | n in contents && (IsMeshRouter(contents[n].body) ==> Used(n, crs)) ::
      if IsMeshRouter(contents[n].body)
      then contents[n].(body := Cleaned(contents[n].body, crs))
      else contents[n]
  }

  lemma UnlabelledFacts(d: DeploymentBody)
    ensures MasterCR(WithoutMasterCR(d)) == "" && WithoutMasterCR(d).lastApplied == d.lastApplied
    ensures IsMeshRouter(WithoutMasterCR(d)) == IsMeshRouter(d)
  {
    assert MESH_ROUTER != MASTER_CR;
  }

  lemma MarkedFacts(d: DeploymentBody, crs: CRs)
    ensures Marked(d, crs).labels == d.labels && Marked(d, crs).podLabels == d.podLabels
    ensures LastApplied(Marked(d, crs), crs) == LastApplied(d, crs)
  {
  }

  lemma CleanedFacts(d: DeploymentBody, crs: CRs)
    ensures MasterCR(Cleaned(d, crs)) == if MasterAlive(MasterCR(d), crs) then MasterCR(d) else ""
    ensures LastApplied(Cleaned(d, crs), crs) == LastApplied(d, crs)
    ensures IsMeshRouter(Cleaned(d, crs)) == IsMeshRouter(d)
  {
    MarkedFacts(d, crs);
    UnlabelledFacts(Marked(d, crs));
  }

  /** Only the annotation and the master label can change. */
  lemma CleanedKeeps(d: DeploymentBody, crs: CRs)
    ensures var after := Cleaned(d, crs);
            && after.labels - {MASTER_CR} == d.labels - {MASTER_CR}
            && after.podLabels - {MASTER_CR} == d.podLabels - {MASTER_CR}
            && after.images == d.images && after.settings == d.settings
  {
  }

  /** A second pass over the same resources finds nothing left to change. */
  lemma SweepIdempotent(contents: map<string, Deployment>, crs: CRs)
    ensures Swept(Swept(contents, crs), crs) == Swept(contents, crs)
  {
    var once := Swept(contents, crs);
    forall n | n in once ensures n in Swept(once, crs) && Swept(once, crs)[n] == once[n] {
      CleanedFacts(contents[n].body, crs);
      if IsMeshRouter(contents[n].body) {
        CleanedTwice(contents[n].body, crs);
      }
    }
  }

  lemma CleanedTwice(d: DeploymentBody, crs: CRs)
    ensures Cleaned(Cleaned(d, crs), crs) == Cleaned(d, crs)
  {
    CleanedFacts(d, crs);
  }

  /** What a pass does, Deployment by Deployment. */
  lemma SweepExact(contents: map<string, Deployment>, crs: CRs, n: string)
    requires n in contents && IsMeshRouter(contents[n].body)
    ensures n in Swept(contents, crs) <==> exists cr :: cr in crs.Values && cr.spec.gateway == n
    ensures n in Swept(contents, crs) ==>
              var before, after := contents[n].body, Swept(contents, crs)[n].body;
              && (MasterCR(after) == "" <==>
                    || MasterCR(before) == ""
                    || forall cr | cr in crs.Values && cr.name == MasterCR(before) :: !cr.spec.masterConfiguration)
              && (MasterCR(after) != "" ==> MasterCR(after) == MasterCR(before))
              && after.images == before.images && after.settings == before.settings
              && after.labels - {MASTER_CR} == before.labels - {MASTER_CR}
              && after.podLabels - {MASTER_CR} == before.podLabels - {MASTER_CR}
              && Swept(contents, crs)[n].owners == contents[n].owners
              && (after.lastApplied != before.lastApplied ==>
                    LastApplied(before, crs) == Success(None) && after.lastApplied.last.deleted)
              && (before.lastApplied.Recorded? && LastApplied(before, crs) == Success(None) ==>
                    after.lastApplied == Recorded(before.lastApplied.last.(deleted := true)))
  {
    CleanedFacts(contents[n].body, crs);
    CleanedKeeps(contents[n].body, crs);
    UsersAndMasters(n, MasterCR(contents[n].body), crs);
  }

  /** Used and MasterAlive, by the resources themselves. */
  lemma UsersAndMasters(gateway: string, name: string, crs: CRs)
    ensures Used(gateway, crs) <==> exists cr :: cr in crs.Values && cr.spec.gateway == gateway
    ensures MasterAlive(name, crs) <==>
              exists cr :: cr in crs.Values && cr.name == name && cr.spec.masterConfiguration
  {
    forall id | id in crs ensures crs[id] in crs.Values && crs[id].name == id.name {
      assert crs[id].Id() == id;
    }
    forall cr | cr in crs.Values ensures cr.Id() in crs && crs[cr.Id()] == cr {
    }
  }
}
