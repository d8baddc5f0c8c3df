/** The agent dashboard: one card per module showing the turn it serves, whether it is free,
    and whether its call-next button is enabled. */
module ModuleDashboard {
  import opened Wrappers
  import opened Schema
  import opened Seqs
  import QueueService
  import QueueProperties
  import DisplayBoard
  import ListStores

  /** What the dashboard derives for one module. */
  datatype ModuleCard = ModuleCard(moduleRow: Module, serving: Option<Turn>, isAvailable: bool,
                                   canCallNext: bool, callDisabled: bool)

  function ServesModule(moduleId: Uuid): Turn -> bool
  {
    (t: Turn) => t.moduleId == Some(moduleId)
  }

  /** `getModuleStatus`: the first served turn that references the module, if any. */
  function GetModuleStatus(served: seq<Turn>, moduleId: Uuid): (r: Option<Turn>)
    ensures r.None? <==> forall i :: 0 <= i < |served| ==> served[i].moduleId != Some(moduleId)
    ensures r.Some? ==> exists i :: 0 <= i < |served| && served[i] == r.value && served[i].moduleId == Some(moduleId)
                                    && forall j :: 0 <= j < i ==> served[j].moduleId != Some(moduleId)
  {
    Find(served, ServesModule(moduleId))
  }

  /** `getNextInQueue`: the first turn of the waiting list, or nothing when it is empty. */
  function GetNextInQueue(waiting: seq<Turn>): (r: Option<Turn>)
    ensures r.None? <==> |waiting| == 0
    ensures r.Some? ==> r.value == waiting[0]
  {
    if |waiting| == 0 then None else Some(waiting[0])
  }

  /** The card of one module: the turn it serves is `getModuleStatus`'s; available iff no served
      turn references it; call-next iff available and someone waits; the button is disabled
      otherwise or while loading. */
  function Card(m: Module, served: seq<Turn>, waiting: seq<Turn>, isLoading: bool): (r: ModuleCard)
    ensures r.moduleRow == m
    ensures r.isAvailable <==> forall i :: 0 <= i < |served| ==> served[i].moduleId != Some(m.id)
    ensures r.canCallNext <==> r.isAvailable && GetNextInQueue(waiting).Some?
    ensures r.serving == GetModuleStatus(served, m.id)
    ensures r.callDisabled <==> !r.canCallNext || isLoading
    ensures r.callDisabled <==> r.serving.Some? || |waiting| == 0 || isLoading
  {
    var serving := GetModuleStatus(served, m.id);
    var isAvailable := serving.None?;
    var canCallNext := isAvailable && |waiting| > 0;
    ModuleCard(m, serving, isAvailable, canCallNext, !canCallNext || isLoading)
  }

  /** The module grid: a card per module, in module-list order. */
  function Cards(modules: seq<Module>, served: seq<Turn>, waiting: seq<Turn>, isLoading: bool): (r: seq<ModuleCard>)
    ensures |r| == |modules|
    ensures forall i :: 0 <= i < |modules| ==> r[i] == Card(modules[i], served, waiting, isLoading)
  {
    seq(|modules|, i requires 0 <= i < |modules| => Card(modules[i], served, waiting, isLoading))
  }

  /** On the lists the server returns, the dashboard's availability is the negation of the
      server's busy check. */
  lemma AvailableIffServerNotBusy(turns: seq<Turn>, m: Module, isLoading: bool)
    ensures Card(m, QueueService.GetCurrentlyServed(turns), QueueService.GetWaitingTurns(turns), isLoading).isAvailable
            <==> !QueueService.IsModuleBusy(turns, m.id)
  {
    var served := QueueService.GetCurrentlyServed(turns);
    QueueProperties.BusyWitness(turns, m.id);
    if QueueService.IsModuleBusy(turns, m.id) {
      var i :| 0 <= i < |turns| && turns[i].moduleId == Some(m.id) && turns[i].status == BeingServed;
      assert turns[i] in served;
    } else {
      forall k | 0 <= k < |served| ensures served[k].moduleId != Some(m.id) {
        assert served[k] in turns && served[k].status == BeingServed;
      }
    }
  }

  /** Call-next is enabled on a card exactly when the server would assign the module a turn,
      and the turn it assigns is the one the dashboard shows as next. */
  lemma CanCallNextIffServerAssigns(db: Db, m: Module, isLoading: bool, now: Timestamp)
    requires QueueService.ModuleExists(db.modules, m.id)
    ensures var served := QueueService.GetCurrentlyServed(db.turns);
            var waiting := QueueService.GetWaitingTurns(db.turns);
            var s := QueueService.AssignToModule(db, m.id, now);
            && (Card(m, served, waiting, isLoading).canCallNext <==> s.result.Ok?)
            && (s.result.Ok? ==> s.result.value.id == GetNextInQueue(waiting).value.id)
  {
    AvailableIffServerNotBusy(db.turns, m, isLoading);
    QueueProperties.NextIsHeadOfWaitingList(db.turns);
  }

  /** The reply the `/queue/call-next` handler sends for a call-next outcome: success with the
      served turn, or an error status carrying the error's message. */
  function CallNextReply(s: Step<Turn, QueueService.QueueError>): (r: ListStores.Reply<Option<Turn>>)
    ensures ListStores.Succeeded(r) <==> s.result.Ok?
    ensures s.result.Ok? ==> r.payload == Some(s.result.value)
    ensures s.result.Err? ==> r.RequestFailed?
  {
    if s.result.Ok? then ListStores.Replied(true, Some(s.result.value)) else ListStores.RequestFailed
  }

  /** Pressing call-next, when the store's refreshes get a response, resolves to a turn exactly
      when the server's call-next succeeds, and that turn is the head of the waiting list, now
      served at the module. When a refresh gets none, a served turn ends in a rejection. */
  lemma CallNextReturnsHeadOfQueue(db: Db, moduleId: Uuid, now: Timestamp, refreshesAnswered: bool)
    ensures var s := QueueService.AssignToModule(db, moduleId, now);
            var out := ListStores.CallNext(CallNextReply(s), refreshesAnswered).0;
            && (out.Resolves? && out.turn.Some? <==> s.result.Ok? && refreshesAnswered)
            && (out.Rejects? <==> s.result.Ok? && !refreshesAnswered)
            && (s.result.Ok? ==>
                  && |QueueService.GetWaitingTurns(db.turns)| > 0
                  && (refreshesAnswered ==> out.turn == Some(s.result.value))
                  && s.result.value.id == QueueService.GetWaitingTurns(db.turns)[0].id
                  && s.result.value.status == BeingServed
                  && s.result.value.moduleId == Some(moduleId))
  {
    if QueueService.AssignToModule(db, moduleId, now).result.Ok? {
      QueueProperties.AssignServesHeadOfWaitingList(db, moduleId, now);
    }
  }

  /** The dashboard ignores `isActive`: an inactive module that serves no one is shown free,
      yet the display board never predicts a turn for it. */
  lemma InactiveModuleShownFreeButNeverPredicted(waiting: seq<Turn>, modules: seq<Module>, served: seq<Turn>,
                                                 m: Module, isLoading: bool)
    requires !m.isActive
    requires forall i :: 0 <= i < |served| ==> served[i].moduleId != Some(m.id)
    ensures Card(m, served, waiting, isLoading).isAvailable
    ensures forall i :: 0 <= i < |DisplayBoard.NextTurnsWithModules(waiting, modules, served)| ==>
              DisplayBoard.NextTurnsWithModules(waiting, modules, served)[i].predictedModule != Some(m)
  {
    forall i | 0 <= i < |DisplayBoard.NextTurnsWithModules(waiting, modules, served)|
      ensures DisplayBoard.NextTurnsWithModules(waiting, modules, served)[i].predictedModule != Some(m)
    {
      DisplayBoard.PredictionByPosition(waiting, modules, served, i);
    }
  }
}
