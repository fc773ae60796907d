/**
 * The schedule entry (Agendamento) and its value view.
 *
 * Id, Cron, Route and IsActive are the persisted columns; ProximaOcorrencia
 * is runtime-only ([NotMapped]), so every object materialised from the store
 * starts with it at default(DateTime), i.e. Unset.
 */
module Schedules {
  import opened Wrappers
  import opened Cron

  /** The persisted columns of one store row. Cron and Route are nullable. */
  datatype Row = Row(id: int, cron: Option<string>, route: Option<string>, isActive: bool)

  /** The value of an Agendamento object at one moment. */
  datatype Entry = Entry(id: int, cron: Option<string>, route: Option<string>, isActive: bool, next: Instant)

  /** The entry a freshly materialised row becomes: the runtime-only next occurrence is not loaded. */
  function Materialised(r: Row): (e: Entry)
  {
    Entry(r.id, r.cron, r.route, r.isActive, Unset)
  }

  function MaterialisedAll(rows: seq<Row>): (es: seq<Entry>)
    ensures |es| == |rows|
    ensures forall i :: 0 <= i < |rows| ==> es[i].id == rows[i].id && es[i].isActive == rows[i].isActive && es[i].next == Unset
  {
    seq(|rows|, i requires 0 <= i < |rows| => Materialised(rows[i]))
  }

  class Agendamento {
    var Id: int
    var Cron: Option<string>
    var Route: Option<string>
    var IsActive: bool
    var ProximaOcorrencia: Instant

    function View(): Entry
      reads this
    {
      Entry(Id, Cron, Route, IsActive, ProximaOcorrencia)
    }

    /** The object EF materialises for a row: mapped columns copied, ProximaOcorrencia at default. */
    constructor FromRow(r: Row)
      ensures View() == Materialised(r)
    {
      Id, Cron, Route, IsActive := r.id, r.cron, r.route, r.isActive;
      ProximaOcorrencia := Unset;
    }

    /** Sets the next occurrence and nothing else. */
    method AdicionarProximaOcorrencia(proximaOcorrencia: Instant)
      modifies this
      ensures View() == old(View()).(next := proximaOcorrencia)
    {
      ProximaOcorrencia := proximaOcorrencia;
    }
  }

  function Views(s: seq<Agendamento>): (vs: seq<Entry>)
    reads set a | a in s
    ensures |vs| == |s|
    ensures forall i :: 0 <= i < |s| ==> vs[i] == s[i].View()
  {
    seq(|s|, i reads set a | a in s requires 0 <= i < |s| => s[i].View())
  }

  /** Id is the identity: no two entries of a list share one. */
  predicate DistinctIds(es: seq<Entry>)
  {
    forall i, j :: 0 <= i < j < |es| ==> es[i].id != es[j].id
  }

  predicate DistinctRowIds(rows: seq<Row>)
  {
    forall i, j :: 0 <= i < j < |rows| ==> rows[i].id != rows[j].id
  }

  /** Objects with distinct ids are distinct objects. */
  lemma DistinctIdsDistinctObjects(s: seq<Agendamento>)
    requires DistinctIds(Views(s))
    ensures forall i, j :: 0 <= i < j < |s| ==> s[i] != s[j]
  {
  }
}
