/** The facade of pdfCaching/PdfCache.kt: a `PdfCache` owns one `PdfCacheRepository` and hands
    each call to it unchanged. */
module PdfCaching {
  import opened Wrappers
  import opened Primitives
  import opened PdfCacheStore

  class PdfCache {
    const repository: PdfCacheRepository

    ghost predicate Valid()
      reads this, repository
    {
      repository.Valid()
    }

    constructor ()
      ensures Valid() && fresh(repository) && repository.rows == map[]
    {
      repository := new PdfCacheRepository();
    }

    /** `lagre`: what the repository's upsert returns. */
    method Lagre(ny: NyPdfSomSkalCaches, now: Timestamp, newUuid: Uuid) returns (r: Result<PdfFraCache, StorageError>)
      requires Valid()
      requires newUuid !in Uuids(repository.rows)
      modifies repository
      ensures Valid()
      ensures r.Ok? <==> FitsColumns(ny)
      ensures r.Ok? ==> r.value == PdfFraCache(ny.pdf, newUuid) &&
                        repository.rows == Upsert(old(repository.rows), ny, now, newUuid)
      ensures r.Err? ==> repository.rows == old(repository.rows)
    {
      r := repository.Lagre(ny, now, newUuid);
    }

    /** `hentFraCache`. */
    function HentFraCache(uuid: Uuid): (r: Option<PdfFraCache>)
      reads this, repository
      requires Valid()
      ensures r.Some? <==> uuid in Uuids(repository.rows)
      ensures r.Some? ==> r.value.uuid == uuid &&
                          exists k :: k in repository.rows &&
                                      repository.rows[k] == CachetPdf(r.value.pdf, repository.rows[k].updatedAt, uuid)
    {
      repository.Hent(uuid)
    }

    /** `slett`. */
    method Slett(uuid: Uuid)
      requires Valid()
      modifies repository
      ensures Valid()
      ensures repository.rows == DeleteUuid(old(repository.rows), uuid)
    {
      repository.Slett(uuid);
    }
  }

  /** Storing twice for the same (case worker, national id) pair: the second UUID differs
      from the first, the first is then not found, and the second yields the second bytes. */
  lemma StoreTwiceSameKey(t: Table, first: NyPdfSomSkalCaches, second: NyPdfSomSkalCaches,
                          now1: Timestamp, now2: Timestamp, u1: Uuid, u2: Uuid)
    requires UniqueUuids(t) && u1 !in Uuids(t)
    requires KeyOf(first) == KeyOf(second)
    requires u2 !in Uuids(Upsert(t, first, now1, u1))
    ensures u1 != u2
    ensures Find(Upsert(Upsert(t, first, now1, u1), second, now2, u2), u1) == None
    ensures Find(Upsert(Upsert(t, first, now1, u1), second, now2, u2), u2) == Some(PdfFraCache(second.pdf, u2))
  {
    var t1 := Upsert(t, first, now1, u1);
    assert u1 in Uuids(t1) by { assert t1[KeyOf(first)].uuid == u1; }
    UpsertKeepsUuidsUnique(t, first, now1, u1);
    UpsertRetiresOldUuid(t1, second, now2, u2);
    FindAfterUpsert(t1, second, now2, u2);
  }

  /** After deleting a UUID it is not found; an entry stored under another key stays found
      with its bytes. */
  lemma DeleteLeavesOthersRetrievable(t: Table, ny: NyPdfSomSkalCaches, now: Timestamp, u: Uuid, gone: Uuid)
    requires UniqueUuids(t) && u !in Uuids(t) && gone != u
    ensures Find(DeleteUuid(Upsert(t, ny, now, u), gone), gone) == None
    ensures Find(DeleteUuid(Upsert(t, ny, now, u), gone), u) == Some(PdfFraCache(ny.pdf, u))
  {
    var t1 := Upsert(t, ny, now, u);
    UpsertKeepsUuidsUnique(t, ny, now, u);
    FindAfterUpsert(t, ny, now, u);
    FindAfterDelete(t1, gone, u);
  }

  /** The facade's scenario: store, read back the bytes, overwrite, delete. */
  method RoundTripScenario(a: NyPdfSomSkalCaches, b: NyPdfSomSkalCaches, now: Timestamp)
    requires FitsColumns(a) && KeyOf(a) == KeyOf(b)
  {
    var cache := new PdfCache();
    var stored := cache.Lagre(a, now, 10);
    assert stored == Ok(PdfFraCache(a.pdf, 10));
    FindAfterUpsert(map[], a, now, 10);
    assert cache.HentFraCache(10) == Some(PdfFraCache(a.pdf, 10));
    assert cache.HentFraCache(11) == None;
    ghost var before := cache.repository.rows;
    var again := cache.Lagre(b, now + 1, 11);
    UpsertRetiresOldUuid(before, b, now + 1, 11);
    assert cache.HentFraCache(10) == None;
    cache.Slett(11);
    assert cache.HentFraCache(11) == None;
  }
}
