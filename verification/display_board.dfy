/** The public queue display board: the next three waiting turns, each paired by position with
    a module that is active and serves no one. */
module DisplayBoard {
  import opened Wrappers
  import opened Schema
  import opened Seqs

  /** How many upcoming turns the board shows. */
  const Upcoming: nat := 3

  /** A board line: the waiting turn and the module it is predicted to go to. */
  datatype BoardEntry = BoardEntry(turn: Turn, predictedModule: Option<Module>)

  function IsActiveModule(): Module -> bool
  {
    (m: Module) => m.isActive
  }

  function HasModuleId(id: Uuid): Module -> bool
  {
    (m: Module) => m.id == id
  }

  function NotIn(ids: seq<Uuid>): Module -> bool
  {
    (m: Module) => m.id !in ids
  }

  /** The active modules, in module-list order. */
  function AvailableModules(modules: seq<Module>): (r: seq<Module>)
    ensures forall i :: 0 <= i < |r| ==> r[i] in modules && r[i].isActive
    ensures forall i :: 0 <= i < |modules| && modules[i].isActive ==> modules[i] in r
    ensures SubsequenceOf(r, modules)
  {
    FilterIsSubsequence(modules, IsActiveModule());
    Filter(modules, IsActiveModule())
  }

  /** The module ids of the served turns, with missing ones dropped. */
  function BusyModuleIds(served: seq<Turn>): (r: seq<Uuid>)
    ensures forall id :: id in r <==> exists i :: 0 <= i < |served| && served[i].moduleId == Some(id)
  {
    if |served| == 0 then []
    else
      var rest := BusyModuleIds(served[1..]);
      assert forall id :: (exists i :: 0 <= i < |served[1..]| && served[1..][i].moduleId == Some(id)) <==>
                          (exists i :: 1 <= i < |served| && served[i].moduleId == Some(id)) by {
        forall id | exists i :: 1 <= i < |served| && served[i].moduleId == Some(id)
          ensures exists i :: 0 <= i < |served[1..]| && served[1..][i].moduleId == Some(id)
        {
          var i :| 1 <= i < |served| && served[i].moduleId == Some(id);
          assert served[1..][i - 1] == served[i];
        }
      }
      (if served[0].moduleId.Some? then [served[0].moduleId.value] else []) + rest
  }

  /** The ids of a list of modules, in order. */
  function Ids(ms: seq<Module>): (r: seq<Uuid>)
    ensures |r| == |ms| && forall i :: 0 <= i < |ms| ==> r[i] == ms[i].id
  {
    seq(|ms|, i requires 0 <= i < |ms| => ms[i].id)
  }

  /** The active modules that serve no one, in module-list order. */
  function FreeModules(modules: seq<Module>, served: seq<Turn>): seq<Module>
  {
    Filter(AvailableModules(modules), NotIn(BusyModuleIds(served)))
  }

  /** The ids of the active modules that serve no one, in module-list order. */
  function AvailableModuleIds(modules: seq<Module>, served: seq<Turn>): (r: seq<Uuid>)
    ensures |r| <= |modules|
    ensures forall i :: 0 <= i < |r| ==> r[i] !in BusyModuleIds(served)
  {
    Ids(FreeModules(modules, served))
  }

  function IsFreeModule(busy: seq<Uuid>): Module -> bool
  {
    (m: Module) => m.isActive && m.id !in busy
  }

  /** The free modules are the module list filtered by "active and serving no one", so they keep
      the list's order, and the available ids are theirs position by position. */
  lemma FreeModulesInListOrder(modules: seq<Module>, served: seq<Turn>)
    ensures FreeModules(modules, served) == Filter(modules, IsFreeModule(BusyModuleIds(served)))
    ensures SubsequenceOf(FreeModules(modules, served), modules)
    ensures AvailableModuleIds(modules, served) == Ids(FreeModules(modules, served))
  {
    var busy := BusyModuleIds(served);
    FilterFilter(modules, IsActiveModule(), NotIn(busy), IsFreeModule(busy));
    FilterIsSubsequence(modules, IsFreeModule(busy));
  }

  /** Every available id belongs to an active module of the list that serves no turn. */
  lemma AvailableIdSound(modules: seq<Module>, served: seq<Turn>, i: nat)
    requires i < |AvailableModuleIds(modules, served)|
    ensures var id := AvailableModuleIds(modules, served)[i];
            && (exists j :: 0 <= j < |modules| && modules[j].id == id && modules[j].isActive)
            && (forall k :: 0 <= k < |served| ==> served[k].moduleId != Some(id))
  {
    var free := FreeModules(modules, served);
    assert free[i] in AvailableModules(modules);
    assert free[i] in modules;
  }

  /** Every active module of the list that serves no turn has its id available. */
  lemma AvailableIdComplete(modules: seq<Module>, served: seq<Turn>, j: nat)
    requires j < |modules| && modules[j].isActive
    requires forall k :: 0 <= k < |served| ==> served[k].moduleId != Some(modules[j].id)
    ensures modules[j].id in AvailableModuleIds(modules, served)
  {
    var avail := AvailableModules(modules);
    var free := FreeModules(modules, served);
    var k :| 0 <= k < |avail| && avail[k] == modules[j];
    assert NotIn(BusyModuleIds(served))(avail[k]);
    var f :| 0 <= f < |free| && free[f] == modules[j];
    assert Ids(free)[f] == modules[j].id;
  }

  /** The module predicted for the upcoming turn at `index`, with the separate branch the board
      has for the first turn. */
  function Predict(index: nat, avail: seq<Module>, ids: seq<Uuid>): Option<Module>
  {
    if index == 0 && |ids| > 0 then Find(avail, HasModuleId(ids[0]))
    else if index < |ids| then Find(avail, HasModuleId(ids[index]))
    else None
  }

  /** The positional rule: turn i goes to the i-th free module, if there is one. */
  function PredictByPosition(index: nat, avail: seq<Module>, ids: seq<Uuid>): Option<Module>
  {
    if index < |ids| then Find(avail, HasModuleId(ids[index])) else None
  }

  /** The first-turn branch is the positional rule at index 0. */
  lemma FirstBranchAgrees(index: nat, avail: seq<Module>, ids: seq<Uuid>)
    ensures Predict(index, avail, ids) == PredictByPosition(index, avail, ids)
  {
  }

  /** `getNextTurnsWithModules`: the first three waiting turns, each with its predicted module. */
  function NextTurnsWithModules(waiting: seq<Turn>, modules: seq<Module>, served: seq<Turn>): (r: seq<BoardEntry>)
    ensures |r| == if |waiting| < Upcoming then |waiting| else Upcoming
    ensures forall i :: 0 <= i < |r| ==> r[i].turn == waiting[i]
  {
    var avail := AvailableModules(modules);
    var ids := AvailableModuleIds(modules, served);
    var n := if |waiting| < Upcoming then |waiting| else Upcoming;
    seq(n, i requires 0 <= i < n => BoardEntry(waiting[i], Predict(i, avail, ids)))
  }

  /** Entry i has a prediction iff there are more than i free modules, and then the prediction
      is an active module carrying the i-th free id, which serves no turn. */
  lemma PredictionByPosition(waiting: seq<Turn>, modules: seq<Module>, served: seq<Turn>, i: nat)
    requires i < |NextTurnsWithModules(waiting, modules, served)|
    ensures var p := NextTurnsWithModules(waiting, modules, served)[i].predictedModule;
            var ids := AvailableModuleIds(modules, served);
            && (p.Some? <==> i < |ids|)
            && (p.Some? ==> p.value.id == ids[i] && p.value.isActive && p.value in modules)
            && (p.Some? ==> forall k :: 0 <= k < |served| ==> served[k].moduleId != Some(p.value.id))
  {
    var avail := AvailableModules(modules);
    var ids := AvailableModuleIds(modules, served);
    FirstBranchAgrees(i, avail, ids);
    if i < |ids| {
      AvailableIdSound(modules, served, i);
      var j :| 0 <= j < |modules| && modules[j].id == ids[i] && modules[j].isActive;
      assert modules[j] in avail;
      var k :| 0 <= k < |avail| && avail[k] == modules[j];
      assert HasModuleId(ids[i])(avail[k]);
    }
  }

  /** With no active free module, no entry has a prediction. */
  lemma NoFreeModuleNoPrediction(waiting: seq<Turn>, modules: seq<Module>, served: seq<Turn>)
    requires forall j :: 0 <= j < |modules| ==> !modules[j].isActive || modules[j].id in BusyModuleIds(served)
    ensures forall i :: 0 <= i < |NextTurnsWithModules(waiting, modules, served)| ==>
              NextTurnsWithModules(waiting, modules, served)[i].predictedModule.None?
  {
    forall i | 0 <= i < |NextTurnsWithModules(waiting, modules, served)|
      ensures NextTurnsWithModules(waiting, modules, served)[i].predictedModule.None?
    {
      PredictionByPosition(waiting, modules, served, i);
      if i < |AvailableModuleIds(modules, served)| {
        AvailableIdSound(modules, served, i);
      }
    }
  }

  /** Module ids are unique in the list. */
  ghost predicate UniqueModuleIds(modules: seq<Module>)
  {
    forall i, j :: 0 <= i < |modules| && 0 <= j < |modules| && i != j ==> modules[i].id != modules[j].id
  }

  /** Filtering a list with unique module ids keeps the ids unique. */
  lemma {:induction false} FilterKeepsUniqueIds(ms: seq<Module>, p: Module -> bool)
    requires UniqueModuleIds(ms)
    ensures UniqueModuleIds(Filter(ms, p))
    decreases |ms|
  {
    if |ms| > 0 {
      assert UniqueModuleIds(ms[1..]) by {
        forall i, j | 0 <= i < |ms[1..]| && 0 <= j < |ms[1..]| && i != j ensures ms[1..][i].id != ms[1..][j].id {
          assert ms[1..][i] == ms[i + 1] && ms[1..][j] == ms[j + 1];
        }
      }
      FilterKeepsUniqueIds(ms[1..], p);
      var rest := Filter(ms[1..], p);
      if p(ms[0]) {
        var all := Filter(ms, p);
        assert all == [ms[0]] + rest;
        forall k | 0 <= k < |rest| ensures rest[k].id != ms[0].id {
          var j :| 0 <= j < |ms[1..]| && ms[1..][j] == rest[k];
          assert ms[j + 1] == rest[k];
        }
        forall a, b | 0 <= a < |all| && 0 <= b < |all| && a != b ensures all[a].id != all[b].id {
          if a > 0 && b > 0 {
            assert all[a] == rest[a - 1] && all[b] == rest[b - 1];
          }
        }
      } else {
        assert Filter(ms, p) == rest;
      }
    }
  }

  /** With unique module ids, no two upcoming turns are predicted to the same module. */
  lemma PredictionsDistinct(waiting: seq<Turn>, modules: seq<Module>, served: seq<Turn>, a: nat, b: nat)
    requires UniqueModuleIds(modules)
    requires a < b < |NextTurnsWithModules(waiting, modules, served)|
    requires NextTurnsWithModules(waiting, modules, served)[a].predictedModule.Some?
    requires NextTurnsWithModules(waiting, modules, served)[b].predictedModule.Some?
    ensures NextTurnsWithModules(waiting, modules, served)[a].predictedModule
            != NextTurnsWithModules(waiting, modules, served)[b].predictedModule
  {
    PredictionByPosition(waiting, modules, served, a);
    PredictionByPosition(waiting, modules, served, b);
    var avail := AvailableModules(modules);
    FilterKeepsUniqueIds(modules, IsActiveModule());
    FilterKeepsUniqueIds(avail, NotIn(BusyModuleIds(served)));
    var free := FreeModules(modules, served);
    assert AvailableModuleIds(modules, served) == Ids(free);
  }
}
