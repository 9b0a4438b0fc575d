/** The MLflow model registry as `model_deploy/mlflow_handler.py` uses it:
    registered model versions, each in one lifecycle stage, a search by model
    name, and stage transitions the server may refuse.

    The promotion that `MLflowHandler.transition_model_version_stage` performs
    against this registry is specified here by the function `Promotion`, and
    what the handler promises is proved about that function. */
module Registry {
  import opened Wrappers

  /** A lifecycle stage. `NoStage` is the registry's "None". */
  datatype Stage = NoStage | Staging | Production | Archived

  /** The stages the handler archives before a promotion (line 63). */
  predicate IsActive(s: Stage)
  {
    s == Staging || s == Production
  }

  /** A registered model version is identified by its name and version. */
  datatype VersionKey = VersionKey(name: string, version: string)

  /** One entry of a search result: a version and the stage it was in when
      the search ran. */
  datatype ModelVersion = ModelVersion(name: string, version: string, currentStage: Stage)
  {
    function Key(): VersionKey
    {
      VersionKey(name, version)
    }
  }

  /** The stage of every registered version. */
  type Stages = map<VersionKey, Stage>

  /** `listing` enumerates exactly the registered versions, in the order in
      which the server reports them. */
  ghost predicate Listed(stages: Stages, listing: seq<VersionKey>)
  {
    forall k :: k in stages <==> k in listing
  }

  /** The server accepts moving version `k` to stage `s`: the version exists
      and the transition is not one the server refuses. */
  predicate Accepted(stages: Stages, refused: set<(VersionKey, Stage)>, k: VersionKey, s: Stage)
  {
    k in stages && (k, s) !in refused
  }

  /** The result of `search_model_versions("name='<name>'")`: the versions
      of `name`, in listing order, with the stage each is in. */
  function Found(stages: Stages, listing: seq<VersionKey>, name: string): (r: seq<ModelVersion>)
    requires forall k :: k in listing ==> k in stages
    ensures forall i :: 0 <= i < |r| ==>
      r[i].name == name && r[i].Key() in stages && stages[r[i].Key()] == r[i].currentStage
  {
    if listing == [] then []
    else
      var k := listing[0];
      assert forall k' :: k' in listing[1..] ==> k' in listing;
      var rest := Found(stages, listing[1..], name);
      if k.name == name then [ModelVersion(k.name, k.version, stages[k])] + rest else rest
  }

  /** Version `k` is one of the entries of the search result `found`. */
  ghost predicate Reports(found: seq<ModelVersion>, k: VersionKey)
  {
    exists i :: 0 <= i < |found| && found[i].Key() == k
  }

  /** The search leaves out no listed version of the name. */
  lemma {:induction false} FoundComplete(stages: Stages, listing: seq<VersionKey>, name: string, k: VersionKey)
    requires forall k :: k in listing ==> k in stages
    requires k in listing && k.name == name
    ensures Reports(Found(stages, listing, name), k)
  {
    var found := Found(stages, listing, name);
    var head := listing[0];
    assert forall k' :: k' in listing[1..] ==> k' in listing;
    var rest := Found(stages, listing[1..], name);
    if k == head {
      assert found[0].Key() == k;
    } else {
      assert k in listing[1..];
      FoundComplete(stages, listing[1..], name, k);
      var j :| 0 <= j < |rest| && rest[j].Key() == k;
      if head.name == name {
        assert found[j + 1] == rest[j];
      } else {
        assert found[j] == rest[j];
      }
    }
  }

  /** Version `k` appears in the search result `found` in an active stage. */
  ghost predicate ActiveIn(found: seq<ModelVersion>, k: VersionKey)
  {
    exists i :: 0 <= i < |found| && found[i].Key() == k && IsActive(found[i].currentStage)
  }

  /** A search over a complete listing reports a version as active exactly
      when it belongs to the name and is active. */
  lemma {:induction false} FoundActive(stages: Stages, listing: seq<VersionKey>, name: string, k: VersionKey)
    requires Listed(stages, listing)
    ensures ActiveIn(Found(stages, listing, name), k) <==> k in stages && k.name == name && IsActive(stages[k])
  {
    var found := Found(stages, listing, name);
    if ActiveIn(found, k) {
      var i :| 0 <= i < |found| && found[i].Key() == k && IsActive(found[i].currentStage);
    }
    if k in stages && k.name == name && IsActive(stages[k]) {
      FoundComplete(stages, listing, name, k);
      var i :| 0 <= i < |found| && found[i].Key() == k;
    }
  }

  /** The state of the registry after a run, and whether the run got through
      every step without an error. */
  datatype Outcome = Outcome(stages: Stages, completed: bool)

  /** The loop of lines 62-69: every entry of `found` reported as active is
      moved to Archived, in order; the first refusal stops the loop and keeps
      the archivings already made. */
  function ArchiveActive(stages: Stages, found: seq<ModelVersion>, refused: set<(VersionKey, Stage)>): (r: Outcome)
    ensures r.stages.Keys == stages.Keys
    ensures forall k :: k in stages && r.stages[k] != stages[k] ==> r.stages[k] == Archived
    decreases |found|
  {
    if found == [] then Outcome(stages, true)
    else if !IsActive(found[0].currentStage) then ArchiveActive(stages, found[1..], refused)
    else if !Accepted(stages, refused, found[0].Key(), Archived) then Outcome(stages, false)
    else ArchiveActive(stages[found[0].Key() := Archived], found[1..], refused)
  }

  /** `result` is `stages` with exactly the versions reported active among
      the first `j` entries of `found` moved to Archived. */
  ghost predicate ArchivedUpTo(stages: Stages, found: seq<ModelVersion>, j: int, result: Stages)
  {
    && 0 <= j <= |found|
    && result.Keys == stages.Keys
    && forall k :: k in stages ==> result[k] == if ActiveIn(found[..j], k) then Archived else stages[k]
  }

  /** The loop stopped at entry `j`: that entry is active and its archiving is
      refused, every active entry before it was accepted, and `result` holds
      the archivings of those entries and nothing else. */
  ghost predicate StoppedAt(stages: Stages, found: seq<ModelVersion>, refused: set<(VersionKey, Stage)>, j: int, result: Stages)
  {
    && ArchivedUpTo(stages, found, j, result)
    && j < |found|
    && IsActive(found[j].currentStage)
    && !Accepted(stages, refused, found[j].Key(), Archived)
    && forall i :: 0 <= i < j && IsActive(found[i].currentStage) ==> Accepted(stages, refused, found[i].Key(), Archived)
  }

  /** An entry in front of a search result is active for `k` or the rest is. */
  lemma ActiveInCons(v: ModelVersion, rest: seq<ModelVersion>, k: VersionKey)
    ensures ActiveIn([v] + rest, k) <==> (v.Key() == k && IsActive(v.currentStage)) || ActiveIn(rest, k)
  {
    var s := [v] + rest;
    if v.Key() == k && IsActive(v.currentStage) {
      assert s[0] == v;
    }
    if ActiveIn(s, k) {
      var i :| 0 <= i < |s| && s[i].Key() == k && IsActive(s[i].currentStage);
      if i > 0 {
        assert rest[i - 1] == s[i];
      }
    }
    if ActiveIn(rest, k) {
      var i :| 0 <= i < |rest| && rest[i].Key() == k && IsActive(rest[i].currentStage);
      assert s[i + 1] == rest[i];
    }
  }

  /** A refused archiving stops the loop: there is a first active entry whose
      archiving is refused, the active entries before it are Archived, and
      every later entry keeps its stage. */
  lemma {:induction false} ArchiveActiveStops(stages: Stages, found: seq<ModelVersion>, refused: set<(VersionKey, Stage)>)
    requires !ArchiveActive(stages, found, refused).completed
    ensures exists j :: StoppedAt(stages, found, refused, j, ArchiveActive(stages, found, refused).stages)
    decreases |found|
  {
    var v := found[0];
    var tail := found[1..];
    var result := ArchiveActive(stages, found, refused).stages;
    if !IsActive(v.currentStage) {
      ArchiveActiveStops(stages, tail, refused);
      var j :| StoppedAt(stages, tail, refused, j, result);
      assert found[..j + 1] == [v] + tail[..j];
      forall k | k in stages
        ensures result[k] == if ActiveIn(found[..j + 1], k) then Archived else stages[k]
      {
        ActiveInCons(v, tail[..j], k);
      }
      assert found[j + 1] == tail[j];
      assert forall i :: 1 <= i < j + 1 ==> found[i] == tail[i - 1];
      assert StoppedAt(stages, found, refused, j + 1, result);
    } else if !Accepted(stages, refused, v.Key(), Archived) {
      assert found[..0] == [];
      assert StoppedAt(stages, found, refused, 0, result);
    } else {
      var next := stages[v.Key() := Archived];
      ArchiveActiveStops(next, tail, refused);
      var j :| StoppedAt(next, tail, refused, j, result);
      assert found[..j + 1] == [v] + tail[..j];
      forall k | k in stages
        ensures result[k] == if ActiveIn(found[..j + 1], k) then Archived else stages[k]
      {
        ActiveInCons(v, tail[..j], k);
      }
      assert found[j + 1] == tail[j];
      assert forall i :: 1 <= i < j + 1 ==> found[i] == tail[i - 1];
      assert forall i :: 0 <= i < |tail| ==>
        (Accepted(next, refused, tail[i].Key(), Archived) <==> Accepted(stages, refused, tail[i].Key(), Archived));
      assert StoppedAt(stages, found, refused, j + 1, result);
    }
  }

  /** The loop archives only versions reported as active, keeps the set of
      versions, archives all of them when it completes, completes exactly
      when no archiving is refused, and otherwise stops at the first refused
      archiving, leaving every later entry as it was. */
  lemma {:induction false} ArchiveActiveEffect(stages: Stages, found: seq<ModelVersion>, refused: set<(VersionKey, Stage)>)
    ensures ArchiveActive(stages, found, refused).stages.Keys == stages.Keys
    ensures forall k :: k in stages ==>
      ArchiveActive(stages, found, refused).stages[k] == stages[k]
      || (ActiveIn(found, k) && ArchiveActive(stages, found, refused).stages[k] == Archived)
    ensures ArchiveActive(stages, found, refused).completed ==>
      forall k :: ActiveIn(found, k) ==> k in stages && ArchiveActive(stages, found, refused).stages[k] == Archived
    ensures ArchiveActive(stages, found, refused).completed <==>
      forall i :: 0 <= i < |found| && IsActive(found[i].currentStage) ==> Accepted(stages, refused, found[i].Key(), Archived)
    ensures !ArchiveActive(stages, found, refused).completed ==>
      exists j :: StoppedAt(stages, found, refused, j, ArchiveActive(stages, found, refused).stages)
    decreases |found|
  {
    if !ArchiveActive(stages, found, refused).completed {
      ArchiveActiveStops(stages, found, refused);
    }
    if found == [] {
      return;
    }
    var v := found[0];
    var tail := found[1..];
    assert forall i :: 1 <= i < |found| ==> found[i] == tail[i - 1];
    assert forall k :: ActiveIn(tail, k) ==> ActiveIn(found, k) by {
      forall k | ActiveIn(tail, k) ensures ActiveIn(found, k) {
        var i :| 0 <= i < |tail| && tail[i].Key() == k && IsActive(tail[i].currentStage);
        assert found[i + 1] == tail[i];
      }
    }
    assert forall k :: ActiveIn(found, k) ==> ActiveIn(tail, k) || (k == v.Key() && IsActive(v.currentStage)) by {
      forall k | ActiveIn(found, k) ensures ActiveIn(tail, k) || (k == v.Key() && IsActive(v.currentStage)) {
        var i :| 0 <= i < |found| && found[i].Key() == k && IsActive(found[i].currentStage);
        if i > 0 {
          assert tail[i - 1] == found[i];
        }
      }
    }
    if !IsActive(v.currentStage) {
      ArchiveActiveEffect(stages, tail, refused);
    } else if !Accepted(stages, refused, v.Key(), Archived) {
      assert ActiveIn(found, v.Key());
    } else {
      var next := stages[v.Key() := Archived];
      ArchiveActiveEffect(next, tail, refused);
      assert forall i :: 0 <= i < |tail| ==>
        (Accepted(next, refused, tail[i].Key(), Archived) <==> Accepted(stages, refused, tail[i].Key(), Archived));
    }
  }

  /** The whole of `transition_model_version_stage(stage)` for the version
      `target` (lines 61-79): search the versions of the target's name,
      archive the active ones, then move the target to `stage`. An error at
      any step ends the run, which leaves the registry as the steps before
      it made it. */
  function Promotion(
    stages: Stages, listing: seq<VersionKey>, searchFails: bool, refused: set<(VersionKey, Stage)>,
    target: VersionKey, stage: Stage): (r: Outcome)
    requires Listed(stages, listing)
    ensures r.stages.Keys == stages.Keys
    ensures r.completed ==> target in r.stages && r.stages[target] == stage
    ensures forall k :: k in stages && k != target && r.stages[k] != stages[k] ==>
      k.name == target.name && r.stages[k] == Archived
    ensures searchFails ==> !r.completed && r.stages == stages
  {
    if searchFails then Outcome(stages, false)
    else
      var found := Found(stages, listing, target.name);
      var archived := ArchiveActive(stages, found, refused);
      assert forall k :: k in stages && archived.stages[k] != stages[k] ==> k.name == target.name by {
        ArchiveActiveEffect(stages, found, refused);
        forall k | k in stages && archived.stages[k] != stages[k] ensures k.name == target.name {
          FoundActive(stages, listing, target.name, k);
        }
      }
      if !archived.completed then archived
      else if Accepted(archived.stages, refused, target, stage) then Outcome(archived.stages[target := stage], true)
      else Outcome(archived.stages, false)
  }

  /** A run gets through every step exactly when the search succeeds, no
      active version of the name is refused its archiving, and the target
      exists and is not refused the requested stage. */
  predicate CanComplete(
    stages: Stages, searchFails: bool, refused: set<(VersionKey, Stage)>, target: VersionKey, stage: Stage)
  {
    && !searchFails
    && Accepted(stages, refused, target, stage)
    && forall k :: k in stages && k.name == target.name && IsActive(stages[k]) ==> (k, Archived) !in refused
  }

  /** Whether a run completes, and what the promotion can change whatever
      happens: the set of versions stays the same; a version only moves from
      an active stage of the target's name to Archived, or, for the target,
      to the requested stage once every step succeeded. */
  lemma PromotionFrame(
    stages: Stages, listing: seq<VersionKey>, searchFails: bool, refused: set<(VersionKey, Stage)>,
    target: VersionKey, stage: Stage)
    requires Listed(stages, listing)
    ensures var o := Promotion(stages, listing, searchFails, refused, target, stage);
      && (o.completed <==> CanComplete(stages, searchFails, refused, target, stage))
      && o.stages.Keys == stages.Keys
      && forall k :: k in stages ==>
        || o.stages[k] == stages[k]
        || (k.name == target.name && IsActive(stages[k]) && o.stages[k] == Archived)
        || (k == target && o.completed && o.stages[k] == stage)
  {
    if !searchFails {
      var found := Found(stages, listing, target.name);
      ArchiveActiveEffect(stages, found, refused);
      forall k | true
        ensures ActiveIn(found, k) <==> k in stages && k.name == target.name && IsActive(stages[k])
      {
        FoundActive(stages, listing, target.name, k);
      }
      var archived := ArchiveActive(stages, found, refused);
      if archived.completed {
        forall k | k in stages && k.name == target.name && IsActive(stages[k])
          ensures (k, Archived) !in refused
        {
          var i :| 0 <= i < |found| && found[i].Key() == k && IsActive(found[i].currentStage);
        }
      } else {
        var i :| 0 <= i < |found| && IsActive(found[i].currentStage)
          && !Accepted(stages, refused, found[i].Key(), Archived);
        assert ActiveIn(found, found[i].Key());
      }
    }
  }

  /** After a run that completed, the target is in the requested stage,
      every other version of its name that was in Staging or Production is
      Archived, and every other version is unchanged. */
  lemma PromotionCompleted(
    stages: Stages, listing: seq<VersionKey>, searchFails: bool, refused: set<(VersionKey, Stage)>,
    target: VersionKey, stage: Stage)
    requires Listed(stages, listing)
    requires Promotion(stages, listing, searchFails, refused, target, stage).completed
    ensures var o := Promotion(stages, listing, searchFails, refused, target, stage);
      && o.stages.Keys == stages.Keys
      && o.stages[target] == stage
      && forall k :: k in stages && k != target ==>
        o.stages[k] == if k.name == target.name && IsActive(stages[k]) then Archived else stages[k]
  {
    var found := Found(stages, listing, target.name);
    ArchiveActiveEffect(stages, found, refused);
    forall k | k in stages
      ensures ActiveIn(found, k) <==> k.name == target.name && IsActive(stages[k])
    {
      FoundActive(stages, listing, target.name, k);
    }
  }

  /** After a run that completed, the target is the only version of its name
      in Staging or Production; in particular a promotion to Staging leaves no
      version of the name in Production. */
  lemma PromotionSingleActive(
    stages: Stages, listing: seq<VersionKey>, searchFails: bool, refused: set<(VersionKey, Stage)>,
    target: VersionKey, stage: Stage)
    requires Listed(stages, listing)
    requires Promotion(stages, listing, searchFails, refused, target, stage).completed
    ensures var o := Promotion(stages, listing, searchFails, refused, target, stage);
      && (forall k :: k in o.stages && k.name == target.name && IsActive(o.stages[k]) ==> k == target)
      && (stage == Staging ==> forall k :: k in o.stages && k.name == target.name ==> o.stages[k] != Production)
  {
    PromotionCompleted(stages, listing, searchFails, refused, target, stage);
  }

  /** A run over the search result `found` stopped at some entry `j`:
      exactly the active entries before `j` are Archived in `result`, and
      either entry `j` is active and refused its archiving, or `j` is past
      the end and the final transition of the target is refused. */
  ghost predicate RunStopped(
    stages: Stages, found: seq<ModelVersion>, refused: set<(VersionKey, Stage)>,
    target: VersionKey, stage: Stage, result: Stages)
  {
    exists j ::
      && ArchivedUpTo(stages, found, j, result)
      && (j < |found| ==> IsActive(found[j].currentStage) && !Accepted(stages, refused, found[j].Key(), Archived))
      && (j == |found| ==> !Accepted(stages, refused, target, stage))
  }

  /** A failed run never makes the final transition: the target keeps its
      stage or, if it was active, is Archived. A failed search changes
      nothing. Otherwise the run stopped at some entry `j` of the search
      result: exactly the active versions reported before it are Archived,
      and every other version keeps its stage. Either entry `j` is an active
      version whose archiving was refused, or every archiving succeeded and
      the final transition was refused. */
  lemma PromotionFailed(
    stages: Stages, listing: seq<VersionKey>, searchFails: bool, refused: set<(VersionKey, Stage)>,
    target: VersionKey, stage: Stage)
    requires Listed(stages, listing)
    requires !Promotion(stages, listing, searchFails, refused, target, stage).completed
    ensures var o := Promotion(stages, listing, searchFails, refused, target, stage);
      && o.stages.Keys == stages.Keys
      && forall k :: k in stages ==>
        o.stages[k] == stages[k] || (k.name == target.name && IsActive(stages[k]) && o.stages[k] == Archived)
    ensures searchFails ==> Promotion(stages, listing, searchFails, refused, target, stage).stages == stages
    ensures !searchFails ==>
      RunStopped(stages, Found(stages, listing, target.name), refused, target, stage,
                 Promotion(stages, listing, searchFails, refused, target, stage).stages)
  {
    PromotionFrame(stages, listing, searchFails, refused, target, stage);
    if !searchFails {
      var found := Found(stages, listing, target.name);
      var o := Promotion(stages, listing, searchFails, refused, target, stage);
      ArchiveActiveEffect(stages, found, refused);
      var archived := ArchiveActive(stages, found, refused);
      if !archived.completed {
        var j :| StoppedAt(stages, found, refused, j, archived.stages);
        assert ArchivedUpTo(stages, found, j, o.stages);
        assert j < |found|;
      } else {
        assert o.stages == archived.stages;
        assert found[..|found|] == found;
        assert !Accepted(archived.stages, refused, target, stage);
        forall k | k in stages
          ensures o.stages[k] == if ActiveIn(found[..|found|], k) then Archived else stages[k]
        {
        }
        assert ArchivedUpTo(stages, found, |found|, o.stages);
        assert !Accepted(stages, refused, target, stage);
      }
      assert RunStopped(stages, found, refused, target, stage, o.stages);
    }
  }

  /** Archiving comes first: when only the final transition of the target is
      refused, every formerly active version of the name, the target
      included, stays Archived. */
  lemma PromotionTargetRefused(
    stages: Stages, listing: seq<VersionKey>, searchFails: bool, refused: set<(VersionKey, Stage)>,
    target: VersionKey, stage: Stage)
    requires Listed(stages, listing)
    requires !searchFails
    requires forall k :: k in stages && k.name == target.name && IsActive(stages[k]) ==> (k, Archived) !in refused
    requires !Accepted(stages, refused, target, stage)
    ensures var o := Promotion(stages, listing, searchFails, refused, target, stage);
      && !o.completed
      && o.stages.Keys == stages.Keys
      && forall k :: k in stages ==>
        o.stages[k] == if k.name == target.name && IsActive(stages[k]) then Archived else stages[k]
  {
    var found := Found(stages, listing, target.name);
    ArchiveActiveEffect(stages, found, refused);
    forall k | true
      ensures ActiveIn(found, k) <==> k in stages && k.name == target.name && IsActive(stages[k])
    {
      FoundActive(stages, listing, target.name, k);
    }
    forall i | 0 <= i < |found| && IsActive(found[i].currentStage)
      ensures Accepted(stages, refused, found[i].Key(), Archived)
    {
      assert ActiveIn(found, found[i].Key());
    }
  }

  /** The registry server the handler talks to through its client. The
      listing of versions, the failure of a search and the transitions the
      server refuses are fixed for the duration of a run; the stages change. */
  class RegistryClient {
    var stages: Stages
    const listing: seq<VersionKey>
    const searchFails: bool
    const refused: set<(VersionKey, Stage)>

    ghost predicate Valid()
      reads this
    {
      Listed(stages, listing)
    }

    constructor (stages: Stages, listing: seq<VersionKey>, searchFails: bool, refused: set<(VersionKey, Stage)>)
      requires Listed(stages, listing)
      ensures Valid()
      ensures this.stages == stages && this.listing == listing
      ensures this.searchFails == searchFails && this.refused == refused
    {
      this.stages := stages;
      this.listing := listing;
      this.searchFails := searchFails;
      this.refused := refused;
    }

    /** `get_model_version(name, version)`: the version's record, or nothing
        when it is not registered (the client raises). */
    function GetModelVersion(k: VersionKey): (r: Option<ModelVersion>)
      reads this
      ensures r.Some? <==> k in stages
      ensures r.Some? ==> r.value.Key() == k && r.value.currentStage == stages[k]
    {
      if k in stages then Some(ModelVersion(k.name, k.version, stages[k])) else None
    }

    /** `search_model_versions("name='<name>'")`: nothing when the search
        raises, otherwise each version of `name` with its current stage, and
        all of them. */
    function SearchModelVersions(name: string): (r: Option<seq<ModelVersion>>)
      reads this
      requires Valid()
      ensures r.None? <==> searchFails
      ensures r.Some? ==> forall i :: 0 <= i < |r.value| ==>
        r.value[i].name == name && r.value[i].Key() in stages && stages[r.value[i].Key()] == r.value[i].currentStage
      ensures r.Some? ==> forall k :: k in stages && k.name == name ==> Reports(r.value, k)
    {
      if searchFails then None
      else
        assert forall k :: k in stages && k.name == name ==> Reports(Found(stages, listing, name), k) by {
          forall k | k in stages && k.name == name ensures Reports(Found(stages, listing, name), k) {
            FoundComplete(stages, listing, name, k);
          }
        }
        Some(Found(stages, listing, name))
    }

    /** `transition_model_version_stage(name, version, stage)`: `ok` is false
        when the call raises, which leaves the registry unchanged. */
    method TransitionModelVersionStage(k: VersionKey, s: Stage) returns (ok: bool)
      requires Valid()
      modifies this
      ensures Valid()
      ensures ok == Accepted(old(stages), refused, k, s)
      ensures stages == if ok then old(stages)[k := s] else old(stages)
    {
      ok := Accepted(stages, refused, k, s);
      if ok {
        stages := stages[k := s];
      }
    }
  }
}
