/** The preview cache table of pdfCaching/PdfCacheRepository.kt (`cachet_pdf`): one row per
    (case worker, national id) pair, each with a retrieval UUID that is replaced on every write.
    The record types `NyPdfSomSkalCaches` and `PdfFraCache` of pdfCaching/PdfCache.kt are
    declared here because the repository already speaks them. */
module PdfCacheStore {
  import opened Wrappers
  import opened Primitives

  type Bytes = seq<bv8>

  /** `NyPdfSomSkalCaches`: what a caller asks to cache. */
  datatype NyPdfSomSkalCaches = NyPdfSomSkalCaches(pdf: Bytes, fnr: string, veilederIdent: string)

  /** `PdfFraCache`: what the cache hands back. */
  datatype PdfFraCache = PdfFraCache(pdf: Bytes, uuid: Uuid)

  /** The unique index `(veileder_ident, fnr)`. */
  datatype Key = Key(veilederIdent: string, fnr: string)

  /** The other columns of a row that the code writes. */
  datatype CachetPdf = CachetPdf(pdf: Bytes, updatedAt: Timestamp, uuid: Uuid)

  /** The table; being a map, it holds at most one row per key. */
  type Table = map<Key, CachetPdf>

  /** Column widths: `varchar("veileder_ident", 7)` and `varchar("fnr", 11)`. */
  const VeilederIdentWidth: nat := 7
  const FnrWidth: nat := 11

  predicate FitsColumns(ny: NyPdfSomSkalCaches)
  {
    |ny.veilederIdent| <= VeilederIdentWidth && |ny.fnr| <= FnrWidth
  }

  /** The error the upsert transaction throws when a value does not fit its column. */
  datatype StorageError = ValueTooLong

  function KeyOf(ny: NyPdfSomSkalCaches): Key
  {
    Key(ny.veilederIdent, ny.fnr)
  }

  /** The retrieval UUIDs in use. */
  function Uuids(t: Table): set<Uuid>
  {
    set k | k in t :: t[k].uuid
  }

  /** No two rows share a retrieval UUID. Every write issues a UUID not in use, so this holds
      of every table the repository produces. */
  ghost predicate UniqueUuids(t: Table)
  {
    forall k1, k2 :: k1 in t && k2 in t && t[k1].uuid == t[k2].uuid ==> k1 == k2
  }

  /** The keys of the rows carrying `uuid`. */
  function KeysWithUuid(t: Table, uuid: Uuid): set<Key>
  {
    set k | k in t && t[k].uuid == uuid
  }

  lemma SingletonMember<X>(s: set<X>, x: X, y: X)
    requires |s| == 1 && x in s && y in s
    ensures x == y
  {
    var z :| z in s;
    assert s == {z} by {
      assert {z} <= s;
      assert |s - {z}| == |s| - |{z}| == 0;
    }
  }

  /** In a table with unique UUIDs, a UUID in use is carried by exactly one row. */
  lemma HitsOfUniqueTable(t: Table, uuid: Uuid)
    ensures uuid !in Uuids(t) ==> KeysWithUuid(t, uuid) == {}
    ensures UniqueUuids(t) && uuid in Uuids(t) ==> |KeysWithUuid(t, uuid)| == 1
  {
    assert forall k :: k in t ==> t[k].uuid in Uuids(t);
    if UniqueUuids(t) && uuid in Uuids(t) {
      var k :| k in t && t[k].uuid == uuid;
      assert KeysWithUuid(t, uuid) == {k};
    }
  }

  /** The upsert of `lagre`: the row for the key of `ny` is inserted or overwritten with the
      new bytes, `updatedAt = now` and the new UUID. */
  function Upsert(t: Table, ny: NyPdfSomSkalCaches, now: Timestamp, uuid: Uuid): (r: Table)
    ensures r.Keys == t.Keys + {KeyOf(ny)}
    ensures r[KeyOf(ny)] == CachetPdf(ny.pdf, now, uuid)
    ensures forall k :: k in t && k != KeyOf(ny) ==> r[k] == t[k]
  {
    t[KeyOf(ny) := CachetPdf(ny.pdf, now, uuid)]
  }

  /** `hent`: the row whose UUID is `uuid`, read with `singleOrNull`, so none when no row and
      also when several rows carry it. */
  function Find(t: Table, uuid: Uuid): (r: Option<PdfFraCache>)
    ensures r.Some? ==> r.value.uuid == uuid &&
                        exists k :: k in t && t[k].uuid == uuid && t[k].pdf == r.value.pdf
    ensures UniqueUuids(t) ==> (r.Some? <==> uuid in Uuids(t))
    ensures UniqueUuids(t) ==> forall k :: k in t && t[k].uuid == uuid ==> r == Some(PdfFraCache(t[k].pdf, uuid))
  {
    var hits := KeysWithUuid(t, uuid);
    HitsOfUniqueTable(t, uuid);
    if |hits| == 1 then
      var k :| k in hits;
      assert forall k' :: k' in hits ==> k' == k by {
        forall k' | k' in hits ensures k' == k { SingletonMember(hits, k, k'); }
      }
      Some(PdfFraCache(t[k].pdf, uuid))
    else
      None
  }

  /** `slett`: delete the rows whose UUID is `uuid`. */
  function DeleteUuid(t: Table, uuid: Uuid): (r: Table)
    ensures r.Keys == t.Keys - KeysWithUuid(t, uuid)
    ensures forall k :: k in r ==> r[k] == t[k]
  {
    map k | k in t && t[k].uuid != uuid :: t[k]
  }

  /** `slettRaderSomIkkeHarBlittOppdatertEtter(threshold)`: delete the rows last written
      strictly before `threshold`. */
  function Sweep(t: Table, threshold: Timestamp): (r: Table)
    ensures forall k :: k in r <==> k in t && t[k].updatedAt >= threshold
    ensures forall k :: k in r ==> r[k] == t[k]
  {
    map k | k in t && !(t[k].updatedAt < threshold) :: t[k]
  }

  /** Writing with a fresh UUID keeps the UUIDs unique. */
  lemma UpsertKeepsUuidsUnique(t: Table, ny: NyPdfSomSkalCaches, now: Timestamp, uuid: Uuid)
    requires UniqueUuids(t) && uuid !in Uuids(t)
    ensures UniqueUuids(Upsert(t, ny, now, uuid))
  {
    var r := Upsert(t, ny, now, uuid);
    forall k | k in r && k != KeyOf(ny) ensures r[k].uuid != uuid {
      assert t[k].uuid in Uuids(t);
    }
  }

  /** Deleting rows keeps the UUIDs unique. */
  lemma DeleteKeepsUuidsUnique(t: Table, uuid: Uuid, threshold: Timestamp)
    requires UniqueUuids(t)
    ensures UniqueUuids(DeleteUuid(t, uuid))
    ensures UniqueUuids(Sweep(t, threshold))
  {
  }

  /** Reading back the UUID just written yields the bytes just written. */
  lemma FindAfterUpsert(t: Table, ny: NyPdfSomSkalCaches, now: Timestamp, uuid: Uuid)
    requires UniqueUuids(t) && uuid !in Uuids(t)
    ensures Find(Upsert(t, ny, now, uuid), uuid) == Some(PdfFraCache(ny.pdf, uuid))
  {
    UpsertKeepsUuidsUnique(t, ny, now, uuid);
  }

  /** Overwriting a key retires its old UUID: it is no longer found. */
  lemma UpsertRetiresOldUuid(t: Table, ny: NyPdfSomSkalCaches, now: Timestamp, uuid: Uuid)
    requires UniqueUuids(t) && uuid !in Uuids(t)
    requires KeyOf(ny) in t
    ensures Find(Upsert(t, ny, now, uuid), t[KeyOf(ny)].uuid) == None
  {
    var r := Upsert(t, ny, now, uuid);
    var retired := t[KeyOf(ny)].uuid;
    assert retired in Uuids(t);
    UpsertKeepsUuidsUnique(t, ny, now, uuid);
    forall k | k in r ensures r[k].uuid != retired {
      if k != KeyOf(ny) {
        assert r[k] == t[k];
      }
    }
  }

  /** Writing one key leaves every lookup of another key's UUID as it was. */
  lemma UpsertPreservesOtherLookups(t: Table, ny: NyPdfSomSkalCaches, now: Timestamp, uuid: Uuid, other: Uuid)
    requires UniqueUuids(t) && uuid !in Uuids(t)
    requires other != uuid
    requires KeyOf(ny) in t ==> other != t[KeyOf(ny)].uuid
    ensures Find(Upsert(t, ny, now, uuid), other) == Find(t, other)
  {
    var r := Upsert(t, ny, now, uuid);
    UpsertKeepsUuidsUnique(t, ny, now, uuid);
    if other in Uuids(t) {
      var k :| k in t && t[k].uuid == other;
      assert k in r && r[k] == t[k];
    } else {
      forall k | k in r ensures r[k].uuid != other {
        if k != KeyOf(ny) {
          assert t[k].uuid in Uuids(t);
        }
      }
    }
  }

  /** After `slett(uuid)` the UUID is not found; every other UUID is found as before. */
  lemma FindAfterDelete(t: Table, uuid: Uuid, other: Uuid)
    requires UniqueUuids(t)
    ensures Find(DeleteUuid(t, uuid), uuid) == None
    ensures other != uuid ==> Find(DeleteUuid(t, uuid), other) == Find(t, other)
  {
    var r := DeleteUuid(t, uuid);
    if other != uuid {
      if other in Uuids(t) {
        var k :| k in t && t[k].uuid == other;
        assert k in r;
      } else {
        forall k | k in r ensures r[k].uuid != other {
          assert t[k].uuid in Uuids(t);
        }
      }
    }
  }

  /** Deleting an unknown UUID changes nothing. */
  lemma DeleteUnknownIsNoOp(t: Table, uuid: Uuid)
    requires uuid !in Uuids(t)
    ensures DeleteUuid(t, uuid) == t
  {
    assert KeysWithUuid(t, uuid) == {} by {
      forall k | k in t ensures t[k].uuid != uuid { assert t[k].uuid in Uuids(t); }
    }
  }

  /** After a sweep at `threshold`, a UUID is found exactly when it was found before and its
      row was written at or after `threshold`. */
  lemma FindAfterSweep(t: Table, threshold: Timestamp, k: Key)
    requires UniqueUuids(t) && k in t
    ensures Find(Sweep(t, threshold), t[k].uuid) ==
            if t[k].updatedAt < threshold then None else Some(PdfFraCache(t[k].pdf, t[k].uuid))
  {
    var r := Sweep(t, threshold);
    DeleteKeepsUuidsUnique(t, 0, threshold);
    if t[k].updatedAt < threshold {
      forall k' | k' in r ensures r[k'].uuid != t[k].uuid {
        assert k' != k;
      }
    } else {
      assert k in r;
    }
  }

  /** The `PdfCacheRepository` class over the `cachet_pdf` table. */
  class PdfCacheRepository {
    var rows: Table

    ghost predicate Valid()
      reads this
    {
      UniqueUuids(rows)
    }

    constructor ()
      ensures Valid() && rows == map[]
    {
      rows := map[];
    }

    /** `lagre`: upsert on (veilederIdent, fnr) with `updatedAt = now` and the UUID that
        `UUID.randomUUID()` produced, given here as `newUuid`; it returns the written row's bytes
        and UUID. A value too long for its column makes the transaction throw. */
    method Lagre(ny: NyPdfSomSkalCaches, now: Timestamp, newUuid: Uuid) returns (r: Result<PdfFraCache, StorageError>)
      requires Valid()
      requires newUuid !in Uuids(rows)
      modifies this
      ensures Valid()
      ensures r.Ok? <==> FitsColumns(ny)
      ensures r.Ok? ==> r.value == PdfFraCache(ny.pdf, newUuid) && rows == Upsert(old(rows), ny, now, newUuid)
      ensures r.Err? ==> rows == old(rows)
    {
      if FitsColumns(ny) {
        UpsertKeepsUuidsUnique(rows, ny, now, newUuid);
        rows := Upsert(rows, ny, now, newUuid);
        r := Ok(PdfFraCache(ny.pdf, newUuid));
      } else {
        r := Err(ValueTooLong);
      }
    }

    /** `hent`. */
    function Hent(uuid: Uuid): (r: Option<PdfFraCache>)
      reads this
      requires Valid()
      ensures r.Some? <==> uuid in Uuids(rows)
      ensures r.Some? ==> r.value.uuid == uuid &&
                          exists k :: k in rows && rows[k] == CachetPdf(r.value.pdf, rows[k].updatedAt, uuid)
    {
      Find(rows, uuid)
    }

    /** `slett`. */
    method Slett(uuid: Uuid)
      requires Valid()
      modifies this
      ensures Valid()
      ensures rows == DeleteUuid(old(rows), uuid)
    {
      DeleteKeepsUuidsUnique(rows, uuid, 0);
      rows := DeleteUuid(rows, uuid);
    }

    /** `slettRaderSomIkkeHarBlittOppdatertEtter`. */
    method SlettRaderSomIkkeHarBlittOppdatertEtter(threshold: Timestamp)
      requires Valid()
      modifies this
      ensures Valid()
      ensures rows == Sweep(old(rows), threshold)
    {
      DeleteKeepsUuidsUnique(rows, 0, threshold);
      rows := Sweep(rows, threshold);
    }
  }

  /** The sweep scenario: the same key written twice, then a sweep at a threshold that lies
      between the two writes. The first UUID is gone, the second still found. */
  method SweepScenario(ny: NyPdfSomSkalCaches, t1: Timestamp, t2: Timestamp, threshold: Timestamp)
    requires FitsColumns(ny) && t1 < threshold <= t2
  {
    var repo := new PdfCacheRepository();
    var first := repo.Lagre(ny, t1, 1);
    var second := repo.Lagre(ny, t2, 2);
    ghost var beforeSweep := repo.rows;
    repo.SlettRaderSomIkkeHarBlittOppdatertEtter(threshold);
    FindAfterSweep(beforeSweep, threshold, KeyOf(ny));
    assert repo.Hent(2).Some?;
    assert Uuids(repo.rows) == {2};
    assert repo.Hent(1) == None;
  }
}
