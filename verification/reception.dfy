/** The reception screen: the customer search, the waiting-queue preview, and the two forms'
    input rules. */
module Reception {
  import opened Wrappers
  import opened Schema
  import opened Seqs
  import opened Text

  /** The search predicate: the lower-cased name contains the lower-cased term, or the
      national id contains the term as typed. */
  function MatchesSearch(term: string): Customer -> bool
  {
    (u: Customer) => Contains(ToLower(u.name), ToLower(term)) || Contains(u.nationalId, term)
  }

  /** `filteredUsers`: the customers matching the search term, in list order. */
  function FilteredUsers(users: seq<Customer>, term: string): (r: seq<Customer>)
    ensures forall i :: 0 <= i < |r| ==> r[i] in users && MatchesSearch(term)(r[i])
    ensures forall i :: 0 <= i < |users| && MatchesSearch(term)(users[i]) ==> users[i] in r
  {
    Filter(users, MatchesSearch(term))
  }

  /** A customer is kept iff the lower-cased term occurs in the lower-cased name or the term
      occurs in the national id. */
  lemma KeptIffOccurs(users: seq<Customer>, term: string, i: nat)
    requires i < |users|
    ensures users[i] in FilteredUsers(users, term) <==>
              (exists k :: OccursAt(ToLower(users[i].name), ToLower(term), k)) || (exists k :: OccursAt(users[i].nationalId, term, k))
  {
    var r := FilteredUsers(users, term);
    if users[i] in r {
      var j :| 0 <= j < |r| && r[j] == users[i];
      assert MatchesSearch(term)(r[j]);
    }
  }

  /** The search keeps list order: its result is a subsequence of the customer list. */
  lemma FilteredUsersIsSubsequence(users: seq<Customer>, term: string)
    ensures SubsequenceOf(FilteredUsers(users, term), users)
  {
    FilterIsSubsequence(users, MatchesSearch(term));
  }

  /** An empty search term keeps every customer. */
  lemma EmptyTermKeepsAll(users: seq<Customer>)
    ensures FilteredUsers(users, "") == users
  {
    forall i | 0 <= i < |users| ensures MatchesSearch("")(users[i]) {
      ContainsEmpty(users[i].nationalId);
    }
    FilterAll(users, MatchesSearch(""));
  }

  /** A name typed in any letter case, or the national id as stored, finds the customer. */
  lemma SearchFindsCustomer(users: seq<Customer>, term: string, i: nat)
    requires i < |users|
    requires ToLower(term) == ToLower(users[i].name) || term == users[i].nationalId
    ensures users[i] in FilteredUsers(users, term)
  {
    if ToLower(term) == ToLower(users[i].name) {
      assert OccursAt(ToLower(users[i].name), ToLower(term), 0);
    } else {
      assert OccursAt(users[i].nationalId, term, 0);
    }
  }

  /** How many waiting turns the preview lists. */
  const PanelSize: nat := 10

  /** A preview line; only the first is marked as next (SIGUIENTE). */
  datatype PanelRow = PanelRow(turn: Turn, isNext: bool)

  /** The preview: an empty-queue message, or the first rows and the count of the rest. */
  datatype QueuePanel = EmptyQueue | Rows(rows: seq<PanelRow>, overflow: Option<nat>)

  /** The waiting-queue preview of at most ten turns, with an overflow line for the rest. */
  function QueuePanelView(waiting: seq<Turn>): (r: QueuePanel)
    ensures r.EmptyQueue? <==> |waiting| == 0
    ensures r.Rows? ==> |r.rows| == (if |waiting| < PanelSize then |waiting| else PanelSize)
    ensures r.Rows? ==> forall i :: 0 <= i < |r.rows| ==> r.rows[i].turn == waiting[i] && (r.rows[i].isNext <==> i == 0)
    ensures r.Rows? ==> (r.overflow.Some? <==> |waiting| > PanelSize)
    ensures r.Rows? ==> |r.rows| + r.overflow.GetOr(0) == |waiting|
  {
    if |waiting| == 0 then EmptyQueue
    else
      var shown := if |waiting| < PanelSize then waiting else waiting[..PanelSize];
      Rows(seq(|shown|, i requires 0 <= i < |shown| => PanelRow(shown[i], i == 0)),
           if |waiting| > PanelSize then Some(|waiting| - PanelSize) else None)
  }

  /** The preview marks as next the turn call-next serves. */
  lemma PreviewHeadIsNext(waiting: seq<Turn>)
    requires |waiting| > 0
    ensures QueuePanelView(waiting).Rows? && QueuePanelView(waiting).rows[0] == PanelRow(waiting[0], true)
  {
  }

  /** The fields of the reception forms. */
  datatype Field = NameField | NationalIdField

  const CustomerNameMin: nat := 3
  const NationalIdMin: nat := 5

  /** The new-customer form's errors: a name under 3 characters, a national id under 5. */
  function CustomerFormErrors(name: string, nationalId: string): (errs: set<Field>)
    ensures errs == {} <==> |name| >= CustomerNameMin && |nationalId| >= NationalIdMin
    ensures NameField in errs <==> |name| < CustomerNameMin
  {
    (if |name| < CustomerNameMin then {NameField} else {}) + (if |nationalId| < NationalIdMin then {NationalIdField} else {})
  }

  /** The new-turn form's errors: a national id under 5 characters. */
  function TurnFormErrors(nationalId: string): (errs: set<Field>)
    ensures errs == {} <==> |nationalId| >= NationalIdMin
    ensures NameField !in errs
  {
    if |nationalId| < NationalIdMin then {NationalIdField} else {}
  }

  /** Any national id a new customer is registered with can be typed into the turn form. */
  lemma RegisteredIdPassesTurnForm(name: string, nationalId: string)
    requires CustomerFormErrors(name, nationalId) == {}
    ensures TurnFormErrors(nationalId) == {}
  {
  }
}
