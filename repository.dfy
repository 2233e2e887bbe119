/** What the services rely on from the persistence layer, on plain values: a table is a
    map from identity to row. Reading a table or a relation set yields its members in an
    order the services do not control; deleting a row either succeeds, reports that the
    row was absent, or reports an integrity violation and leaves the table as it was. */
module Repository {
  import opened Common

  /** The members of `s`, each exactly once, in an unspecified order: how `findAll()` and
      the iteration of a relation set yield their rows. */
  method Elements<T>(s: set<T>) returns (xs: seq<T>)
    ensures |xs| == |s|
    ensures forall x :: x in xs <==> x in s
    ensures forall i, j :: 0 <= i < j < |xs| ==> xs[i] != xs[j]
  {
    xs := [];
    var rest := s;
    while rest != {}
      invariant rest <= s
      invariant forall x :: x in xs <==> x in s && x !in rest
      invariant forall i, j :: 0 <= i < j < |xs| ==> xs[i] != xs[j]
      invariant |xs| + |rest| == |s|
      decreases |rest|
    {
      var x :| x in rest;
      xs := xs + [x];
      rest := rest - {x};
    }
  }

  /** The rows stored under `ids`, in the order of `ids`. */
  function Lookup<T>(table: map<int, T>, ids: seq<int>): (rows: seq<T>)
    requires forall i :: 0 <= i < |ids| ==> ids[i] in table
    ensures |rows| == |ids|
    ensures forall i :: 0 <= i < |ids| ==> rows[i] == table[ids[i]]
  {
    if ids == [] then [] else [table[ids[0]]] + Lookup(table, ids[1..])
  }

  /** What `deleteById` reports. */
  datatype DeleteSignal =
    | Deleted             // the row is gone
    | EmptyResult         // EmptyResultDataAccessException: there was no such row
    | IntegrityViolation  // DataIntegrityViolationException: other rows still refer to it

  /** `deleteById(id)` on `table`; `referenced` says whether other rows still refer to the
      row. On an integrity violation the transaction rolls back: the table is unchanged. */
  function DeleteById<T>(table: map<int, T>, id: int, referenced: bool)
    : (res: (DeleteSignal, map<int, T>))
    ensures res.0 == EmptyResult <==> id !in table
    ensures res.0 == IntegrityViolation <==> id in table && referenced
    ensures res.1 == if res.0 == Deleted then table - {id} else table
  {
    if id !in table then (EmptyResult, table)
    else if referenced then (IntegrityViolation, table)
    else (Deleted, table - {id})
  }

  /** The delete of the enterprise, employee and user services: `findById(id)` first,
      throwing NotFound when absent, then `deleteById(id)`, turning an integrity violation
      into DatabaseError. */
  function DeleteAfterLookup<T>(table: map<int, T>, id: int, referenced: bool)
    : (res: (Outcome, map<int, T>))
    ensures res.0 == Failed(NotFound) <==> id !in table
    ensures res.0 == Failed(DatabaseError) <==> id in table && referenced
    ensures res.0 == Done <==> id in table && !referenced
    ensures res.0.Done? ==> res.1 == table - {id} && |res.1| == |table| - 1
    ensures !res.0.Done? ==> res.1 == table
  {
    if id !in table then (Failed(NotFound), table)
    else
      var (signal, rest) := DeleteById(table, id, referenced);
      if signal == IntegrityViolation then (Failed(DatabaseError), table)
      else
        assert rest.Keys == table.Keys - {id};
        (Done, rest)
  }

  /** The delete of the department service: `deleteById(id)` straight away, turning the
      empty-result signal into NotFound and an integrity violation into DatabaseError. */
  function DeleteOnSignal<T>(table: map<int, T>, id: int, referenced: bool)
    : (res: (Outcome, map<int, T>))
    ensures res.0 == Failed(NotFound) <==> id !in table
    ensures res.0 == Failed(DatabaseError) <==> id in table && referenced
    ensures res.0 == Done <==> id in table && !referenced
    ensures res.0.Done? ==> res.1 == table - {id} && |res.1| == |table| - 1
    ensures !res.0.Done? ==> res.1 == table
  {
    var (signal, rest) := DeleteById(table, id, referenced);
    match signal
    case Deleted =>
      assert rest.Keys == table.Keys - {id};
      (Done, rest)
    case EmptyResult => (Failed(NotFound), table)
    case IntegrityViolation => (Failed(DatabaseError), table)
  }

  /** The two ways of deleting agree on every input: the upfront lookup and the
      store's empty-result signal detect the same absent ids. */
  lemma DeleteVariantsAgree<T>(table: map<int, T>, id: int, referenced: bool)
    ensures DeleteOnSignal(table, id, referenced) == DeleteAfterLookup(table, id, referenced)
  {
  }
}
