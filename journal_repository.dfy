/** The journal log of database/Repository.kt: the append-only `Journalfoeringer` table, one
    row per archived or distributed document, with its two filtered queries. */
module Journal {
  import opened Wrappers
  import opened Primitives

  /** The entry kind, stored by name. It has exactly these two values. */
  datatype JournalfoeringType = JOURNALFOERING | SENDING_TIL_BRUKER

  /** `NyJournalføring`, and also a stored row: the table holds exactly these columns
      (besides its generated integer id). The `type` column is the field `kind`. */
  datatype NyJournalfoering = NyJournalfoering(
    navIdent: string,
    fnr: string,
    opprettetTidspunkt: Timestamp,
    referanse: Uuid,
    journalpostId: string,
    oppfolgingsperiodeId: Uuid,
    kind: JournalfoeringType)

  /** Column widths: `varchar("navident", 7)` and `varchar("foedselsnummer", 11)`. */
  const NavIdentWidth: nat := 7
  const FnrWidth: nat := 11

  /** The database refuses a value longer than its `varchar` column. */
  predicate FitsColumns(entry: NyJournalfoering)
  {
    |entry.navIdent| <= NavIdentWidth && |entry.fnr| <= FnrWidth
  }

  /** The error the insert transaction throws when a value does not fit its column. */
  datatype StorageError = ValueTooLong

  /** The two `find` conditions: by national id, or by follow-up period. */
  datatype Criterion = ByFnr(fnr: string) | ByPeriod(periodId: Uuid)

  predicate Matches(row: NyJournalfoering, c: Criterion, t: JournalfoeringType)
  {
    row.kind == t &&
    match c
    case ByFnr(f) => row.fnr == f
    case ByPeriod(p) => row.oppfolgingsperiodeId == p
  }

  /** The rows a `find` returns, in table order (the database promises no order). */
  function Select(rows: seq<NyJournalfoering>, c: Criterion, t: JournalfoeringType): (r: seq<NyJournalfoering>)
    ensures forall x :: x in r <==> x in rows && Matches(x, c, t)
    ensures |r| <= |rows|
  {
    if rows == [] then []
    else if Matches(rows[0], c, t) then [rows[0]] + Select(rows[1..], c, t)
    else Select(rows[1..], c, t)
  }

  /** Appending one row adds it to the result of exactly the queries it matches, at the end,
      and leaves every query's earlier result in place. */
  lemma {:induction false} SelectAppend(rows: seq<NyJournalfoering>, entry: NyJournalfoering, c: Criterion, t: JournalfoeringType)
    ensures Select(rows + [entry], c, t) ==
            Select(rows, c, t) + (if Matches(entry, c, t) then [entry] else [])
  {
    if rows == [] {
      assert rows + [entry] == [entry];
    } else {
      assert (rows + [entry])[0] == rows[0];
      assert (rows + [entry])[1..] == rows[1..] + [entry];
      SelectAppend(rows[1..], entry, c, t);
    }
  }

  /** Storing an entry does not change the result of a query for another national id, another
      period or another kind. */
  lemma InsertInvisibleElsewhere(rows: seq<NyJournalfoering>, entry: NyJournalfoering, c: Criterion, t: JournalfoeringType)
    requires !Matches(entry, c, t)
    ensures Select(rows + [entry], c, t) == Select(rows, c, t)
  {
    SelectAppend(rows, entry, c, t);
  }

  /** After storing an entry, both queries that match it return one more row, the new one last. */
  lemma InsertVisibleToBothQueries(rows: seq<NyJournalfoering>, entry: NyJournalfoering)
    ensures Select(rows + [entry], ByFnr(entry.fnr), entry.kind) ==
            Select(rows, ByFnr(entry.fnr), entry.kind) + [entry]
    ensures Select(rows + [entry], ByPeriod(entry.oppfolgingsperiodeId), entry.kind) ==
            Select(rows, ByPeriod(entry.oppfolgingsperiodeId), entry.kind) + [entry]
  {
    SelectAppend(rows, entry, ByFnr(entry.fnr), entry.kind);
    SelectAppend(rows, entry, ByPeriod(entry.oppfolgingsperiodeId), entry.kind);
  }

  /** The `Repository` class over the `Journalfoeringer` table. Only insert and the two
      queries exist, so rows are never updated or deleted. */
  class Repository {
    var rows: seq<NyJournalfoering>

    constructor ()
      ensures rows == []
    {
      rows := [];
    }

    /** `lagreJournalfoering`: one insert in its own transaction. */
    method LagreJournalfoering(entry: NyJournalfoering) returns (outcome: Result<(), StorageError>)
      modifies this
      ensures outcome.Ok? <==> FitsColumns(entry)
      ensures rows == if FitsColumns(entry) then old(rows) + [entry] else old(rows)
    {
      if FitsColumns(entry) {
        rows := rows + [entry];
        outcome := Ok(());
      } else {
        outcome := Err(ValueTooLong);
      }
    }

    /** `hentJournalposter(fnr, type)`. */
    function HentJournalposterForFnr(fnr: string, t: JournalfoeringType): (r: seq<NyJournalfoering>)
      reads this
      ensures forall x :: x in r <==> x in rows && x.fnr == fnr && x.kind == t
    {
      Select(rows, ByFnr(fnr), t)
    }

    /** `hentJournalposter(oppfølgingsperiodeId, type)`. */
    function HentJournalposterForPeriode(periodId: Uuid, t: JournalfoeringType): (r: seq<NyJournalfoering>)
      reads this
      ensures forall x :: x in r <==> x in rows && x.oppfolgingsperiodeId == periodId && x.kind == t
    {
      Select(rows, ByPeriod(periodId), t)
    }
  }

  /** A client of the class: two inserts for different people leave each one's query with
      exactly its own row; an entry whose national id is too long is refused. */
  method StoreTwoEntries(a: NyJournalfoering, b: NyJournalfoering)
    requires FitsColumns(a) && FitsColumns(b) && a.fnr != b.fnr
  {
    var repo := new Repository();
    var ra := repo.LagreJournalfoering(a);
    var rb := repo.LagreJournalfoering(b);
    assert repo.rows == [a, b];
    InsertVisibleToBothQueries([], a);
    InsertInvisibleElsewhere([a], b, ByFnr(a.fnr), a.kind);
    assert [a] + [b] == [a, b];
    assert repo.HentJournalposterForFnr(a.fnr, a.kind) == [a];
    InsertVisibleToBothQueries([a], b);
    InsertInvisibleElsewhere([], a, ByFnr(b.fnr), b.kind);
    assert repo.HentJournalposterForFnr(b.fnr, b.kind) == [b];
    var tooLong := b.(fnr := "123456789012");
    var rc := repo.LagreJournalfoering(tooLong);
    assert rc.Err? && repo.rows == [a, b];
  }
}
