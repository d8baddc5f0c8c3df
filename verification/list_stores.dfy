/** The client caches of the modules, customers and staff lists, and how each create, edit and
    delete request updates them. The three stores share one list discipline. */
module ListStores {
  import opened Wrappers
  import opened Schema
  import opened Seqs

  /** A cached list and the store's loading flag. */
  datatype ListStore<T> = ListStore(items: seq<T>, isLoading: bool)

  /** A request's outcome: no HTTP response arrived at all (a network error or a timeout), the
      server answered with an error status (the request threw with a response attached), or
      the server replied with its `success` flag and payload. */
  datatype Reply<T> = NoResponse | RequestFailed | Replied(success: bool, payload: T)

  predicate Succeeded<T>(reply: Reply<T>)
  {
    reply.Replied? && reply.success
  }

  function NotKey<T>(key: T -> Uuid, id: Uuid): T -> bool
  {
    (x: T) => key(x) != id
  }

  function KeyIs<T>(key: T -> Uuid, id: Uuid): T -> bool
  {
    (x: T) => key(x) == id
  }

  /** A create: on success the returned entry is appended. */
  function StoreCreate<T>(st: ListStore<T>, reply: Reply<T>): (r: ListStore<T>)
    ensures !r.isLoading
    ensures Succeeded(reply) ==> r.items == st.items + [reply.payload]
    ensures !Succeeded(reply) ==> r.items == st.items
  {
    if Succeeded(reply) then ListStore(st.items + [reply.payload], false) else ListStore(st.items, false)
  }

  /** An edit of `id`: on success every entry with that id becomes the returned entry. */
  function StoreEdit<T>(st: ListStore<T>, key: T -> Uuid, id: Uuid, reply: Reply<T>): (r: ListStore<T>)
    ensures !r.isLoading
    ensures |r.items| == |st.items|
    ensures forall i :: 0 <= i < |st.items| && (key(st.items[i]) != id || !Succeeded(reply)) ==> r.items[i] == st.items[i]
    ensures Succeeded(reply) ==> forall i :: 0 <= i < |st.items| && key(st.items[i]) == id ==> r.items[i] == reply.payload
  {
    if Succeeded(reply) then ListStore(MapWhere(st.items, KeyIs(key, id), (_: T) => reply.payload), false)
    else ListStore(st.items, false)
  }

  /** A delete of `id`: on success the entries with that id are dropped, the rest kept in order. */
  function StoreDelete<T, P>(st: ListStore<T>, key: T -> Uuid, id: Uuid, reply: Reply<P>): (r: ListStore<T>)
    ensures !r.isLoading
    ensures !Succeeded(reply) ==> r.items == st.items
    ensures Succeeded(reply) ==> SubsequenceOf(r.items, st.items)
    ensures Succeeded(reply) ==> forall i :: 0 <= i < |r.items| ==> key(r.items[i]) != id
    ensures Succeeded(reply) ==> forall i :: 0 <= i < |st.items| && key(st.items[i]) != id ==> st.items[i] in r.items
  {
    if Succeeded(reply) then
      var kept := Filter(st.items, NotKey(key, id));
      FilterIsSubsequence(st.items, NotKey(key, id));
      assert forall i :: 0 <= i < |kept| ==> NotKey(key, id)(kept[i]);
      ListStore(kept, false)
    else ListStore(st.items, false)
  }

  /** Deleting an entry just created, under an id the list did not have, restores the list. */
  lemma {:induction false} CreateThenDeleteRestores<T, P>(st: ListStore<T>, key: T -> Uuid, created: T, deleted: Reply<P>)
    requires forall i :: 0 <= i < |st.items| ==> key(st.items[i]) != key(created)
    requires Succeeded(deleted)
    ensures StoreDelete(StoreCreate(st, Replied(true, created)), key, key(created), deleted).items == st.items
  {
    FilterAppend(st.items, [created], NotKey(key, key(created)));
    FilterAll(st.items, NotKey(key, key(created)));
    assert Filter([created], NotKey(key, key(created))) == [];
  }

  /** Deleting after an edit of the same id is the same as deleting. */
  lemma {:induction false} EditThenDelete<T, P>(st: ListStore<T>, key: T -> Uuid, edited: T, deleted: Reply<P>)
    requires Succeeded(deleted)
    ensures StoreDelete(StoreEdit(st, key, key(edited), Replied(true, edited)), key, key(edited), deleted).items
            == StoreDelete(st, key, key(edited), deleted).items
  {
    EditThenDeleteItems(st.items, key, edited);
  }

  lemma {:induction false} EditThenDeleteItems<T>(xs: seq<T>, key: T -> Uuid, edited: T)
    ensures Filter(MapWhere(xs, KeyIs(key, key(edited)), (_: T) => edited), NotKey(key, key(edited)))
            == Filter(xs, NotKey(key, key(edited)))
    decreases |xs|
  {
    if |xs| > 0 {
      var ys := MapWhere(xs, KeyIs(key, key(edited)), (_: T) => edited);
      assert ys[1..] == MapWhere(xs[1..], KeyIs(key, key(edited)), (_: T) => edited);
      EditThenDeleteItems(xs[1..], key, edited);
    }
  }

  // ---------------------------------------------------------------------------------------
  // The three stores

  /** A staff member as the client lists it (no password). */
  datatype StaffEntry = StaffEntry(id: Uuid, name: string, email: string, role: Role, createdAt: Timestamp)

  function ModuleKey(m: Module): Uuid { m.id }
  function CustomerKey(c: Customer): Uuid { c.id }
  function StaffKey(p: StaffEntry): Uuid { p.id }

  /** How the promise `callNext` returns settles: with a turn or `null`, or rejected. */
  datatype CallResult = Resolves(turn: Option<Turn>) | Rejects

  /** `callNext` on the agent dashboard, with the store's loading flag afterwards. The called
      turn when the server reports success with a turn, and `null` on any other reply or error
      status. Without a response the error handler itself fails reading the response's
      message, so the promise rejects instead of resolving to `null`. After a success with a
      turn the store first refreshes the waiting list, the served list and the statistics;
      `refreshesAnswered` says whether the waiting and statistics refreshes got a response.
      When one did not, its handler fails the same way, and so does `callNext`'s own, so the
      promise rejects although the turn was served. The served-list refresh only logs its
      error. Loading ends false either way. */
  function CallNext(reply: Reply<Option<Turn>>, refreshesAnswered: bool): (r: (CallResult, bool))
    ensures !r.1
    ensures r.0.Rejects? <==> reply.NoResponse? || (Succeeded(reply) && reply.payload.Some? && !refreshesAnswered)
    ensures r.0.Resolves? && r.0.turn.Some? <==> Succeeded(reply) && reply.payload.Some? && refreshesAnswered
    ensures r.0.Resolves? && r.0.turn.Some? ==> r.0.turn == reply.payload
  {
    if reply.NoResponse? then (Rejects, false)
    else if Succeeded(reply) && reply.payload.Some? then
      (if refreshesAnswered then (Resolves(reply.payload), false) else (Rejects, false))
    else (Resolves(None), false)
  }
}
