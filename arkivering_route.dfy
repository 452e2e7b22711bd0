/** The `/arkiver` and `/forhaandsvisning` handlers of arkivering/ArkiveringRoute.kt and their
    helpers. Each handler is a step function from the request and the answers of its
    collaborators (renderer, archive, UUID parser, clock, random reference) to the HTTP answer
    and the trace of outbound effects; `PostArkiver` and `PostForhaandsvisning` run the same
    steps against a `Journal.Repository` object and are proved to agree with the functions. */
module Arkivering {
  import opened Wrappers
  import opened Primitives
  import opened ErrorHandling
  import Journal

  // ---------------------------------------------------------------- request and result records

  /** An activity and a dialogue thread, passed from the request to the renderer unread. */
  type ArkivAktivitet = string
  type ArkivDialogtraad = string

  datatype AktivitetsplanInnhold = AktivitetsplanInnhold(
    aktiviteter: map<string, seq<ArkivAktivitet>>,
    dialogtraader: seq<ArkivDialogtraad>,
    maal: Option<string>)

  datatype Metadata = Metadata(
    fnr: string,
    navn: string,
    oppfolgingsperiodeStart: string,
    oppfolgingsperiodeSlutt: Option<string>,
    oppfolgingsperiodeId: string)

  datatype JournalfoeringsMetadata = JournalfoeringsMetadata(
    sakId: int,
    fagsaksystem: string,
    journalfoerendeEnhet: string)

  datatype JournalfoeringsPayload = JournalfoeringsPayload(
    metadata: Metadata,
    journalfoeringsMetadata: JournalfoeringsMetadata,
    aktivitetsplanInnhold: AktivitetsplanInnhold)

  datatype ForhaandsvisningPayload = ForhaandsvisningPayload(
    metadata: Metadata,
    aktivitetsplanInnhold: AktivitetsplanInnhold)

  /** What the renderer is sent; the timestamp is already formatted. */
  datatype PdfgenPayload = PdfgenPayload(
    navn: string,
    fnr: string,
    oppfolgingsperiodeStart: string,
    oppfolgingsperiodeSlutt: Option<string>,
    aktiviteter: map<string, seq<ArkivAktivitet>>,
    dialogtraader: seq<ArkivDialogtraad>,
    maal: Option<string>,
    journalfoeringstidspunkt: string)

  datatype PdfgenResult = PdfSuccess(pdfByteString: string) | FailedPdfGen(message: string)

  datatype DokarkResult = DokarkSuccess(journalpostId: string) | DokarkFail(message: string)

  /** What the archive client is asked to file. */
  datatype JournalpostData = JournalpostData(
    pdf: string,
    navn: string,
    fnr: string,
    tidspunkt: Timestamp,
    sakId: int,
    fagsaksystem: string,
    eksternReferanse: Uuid,
    oppfolgingsperiodeStart: string,
    oppfolgingsperiodeSlutt: Option<string>,
    journalfoerendeEnhet: string)

  /** A collaborator call either returns or throws. */
  datatype Call<T> = Returns(value: T) | Throws(exception: Exception)

  /** The handlers' collaborators, as the answers they give. `formatTidspunkt` is the Norwegian
      date formatter; `uuidFromString` is `UUID.fromString`, whose error is the message of the
      `IllegalArgumentException` it throws; `insertErrorMessage` is the message of the
      exception the database throws when a journal value does not fit its column. */
  datatype Collaborators = Collaborators(
    formatTidspunkt: Timestamp -> string,
    generatePdf: PdfgenPayload -> Call<PdfgenResult>,
    opprettJournalpost: (string, JournalpostData) -> Call<DokarkResult>,
    uuidFromString: string -> Result<Uuid, string>,
    insertErrorMessage: string)

  /** One HTTP request: the `Authorization` header, the `NAVident` claim of the validated
      token, and the body, or the message of the `BadRequestException` its decoding threw. */
  datatype Request<P> = Request(
    authorization: Option<string>,
    navIdentClaim: Option<string>,
    body: Result<P, string>)

  /** The outbound effects of a handler, in order. `Stored` is a journal row appended. */
  datatype Effect =
    | Rendered(payload: PdfgenPayload)
    | Archived(token: string, data: JournalpostData)
    | Stored(entry: Journal.NyJournalfoering)
    | LookedUp(periodId: Uuid)

  datatype Body =
    | JournalfoeringOutbound(journalfoeringstidspunkt: Timestamp)
    | ForhaandsvisningOutbound(pdf: string, sistJournalfoert: Option<Timestamp>, uuidCachetPdf: Option<string>)
    | Text(text: string)

  /** The answer sent, or none when the handler returns without responding. */
  datatype Response = Response(status: int, body: Body) | NoResponse

  datatype Handled = Handled(response: Response, effects: seq<Effect>)

  /** A handler either finishes or throws out to StatusPages. */
  datatype Step = Done(response: Response, effects: seq<Effect>) | Threw(exception: Exception, effects: seq<Effect>)

  const OkStatus: int := 200

  const NoTokenFound: Exception := Exception(IllegalArgument, Some("No token found"))
  const NoNavIdentClaim: Exception := Exception(Runtime, Some("Klarte ikke å hente NAVident claim fra tokenet"))
  const UnexpectedError: string := "Uventet feil"

  /** What reaches the client: a thrown exception is answered by the StatusPages handlers. */
  function Deliver(s: Step): (h: Handled)
    ensures h.effects == s.effects
    ensures s.Done? ==> h.response == s.response
    ensures s.Threw? ==> h.response.Response? && h.response.body.Text?
    ensures s.Threw? ==> (h.response.status == BadRequestStatus <==> s.exception.kind in {IllegalAccess, BadRequest})
    ensures s.Threw? ==> (h.response.status == InternalServerErrorStatus <==> s.exception.kind !in {IllegalAccess, BadRequest})
    ensures s.Threw? && s.exception.message.Some? ==>
              |h.response.body.text| == 5 + |s.exception.message.value| &&
              h.response.body.text[5..] == s.exception.message.value
  {
    match s
    case Done(r, e) => Handled(r, e)
    case Threw(x, e) => Handled(Response(Respond(x).status, Text(Respond(x).text)), e)
  }

  /** The rows an effect trace appended to the journal, in order. */
  function StoredEntries(effects: seq<Effect>): (r: seq<Journal.NyJournalfoering>)
    ensures |r| <= |effects|
    ensures forall x :: x in r <==> Stored(x) in effects
  {
    if effects == [] then []
    else (if effects[0].Stored? then [effects[0].entry] else []) + StoredEntries(effects[1..])
  }

  lemma {:induction false} StoredEntriesAppend(a: seq<Effect>, b: seq<Effect>)
    ensures StoredEntries(a + b) == StoredEntries(a) + StoredEntries(b)
  {
    if a == [] {
      assert a + b == b;
    } else {
      assert (a + b)[0] == a[0];
      assert (a + b)[1..] == a[1..] + b;
      StoredEntriesAppend(a[1..], b);
    }
  }

  // ---------------------------------------------------------------- hentUtBearerToken

  /** Kotlin's `split(" ")` with a one-character delimiter: the pieces between the delimiters,
      empty pieces included, so never an empty list. */
  function Split(s: string, sep: char): (parts: seq<string>)
    ensures |parts| >= 1
    ensures forall i :: 0 <= i < |parts| ==> sep !in parts[i]
  {
    if |s| == 0 then [""]
    else
      var rest := Split(s[1..], sep);
      if s[0] == sep then [""] + rest
      else [[s[0]] + rest[0]] + rest[1..]
  }

  /** The inverse of `Split`: the pieces with the delimiter between them. */
  function Join(parts: seq<string>, sep: char): string
    requires |parts| >= 1
  {
    if |parts| == 1 then parts[0] else parts[0] + [sep] + Join(parts[1..], sep)
  }

  /** Splitting loses nothing: joining the pieces gives the header back. */
  lemma {:induction false} JoinSplit(s: string, sep: char)
    ensures Join(Split(s, sep), sep) == s
  {
    if |s| > 0 {
      var rest := Split(s[1..], sep);
      JoinSplit(s[1..], sep);
      if s[0] == sep {
        assert Split(s, sep) == [""] + rest;
        assert ([""] + rest)[1..] == rest;
        assert s == [sep] + s[1..];
      } else {
        var parts := Split(s, sep);
        assert parts == [[s[0]] + rest[0]] + rest[1..];
        if |rest| == 1 {
          assert s == [s[0]] + s[1..];
        } else {
          assert parts[1..] == rest[1..];
          assert Join(rest, sep) == rest[0] + [sep] + Join(rest[1..], sep);
          assert s == [s[0]] + s[1..];
        }
      }
    }
  }

  lemma {:induction false} SplitWithoutSeparator(b: string, sep: char)
    requires sep !in b
    ensures Split(b, sep) == [b]
  {
    if |b| > 0 {
      assert sep !in b[1..];
      SplitWithoutSeparator(b[1..], sep);
      assert b == [b[0]] + b[1..];
    }
  }

  /** Text after the last delimiter becomes the last piece. */
  lemma {:induction false} SplitAfterLastSeparator(a: string, b: string, sep: char)
    requires sep !in b
    ensures Split(a + [sep] + b, sep) == Split(a, sep) + [b]
  {
    var s := a + [sep] + b;
    if |a| == 0 {
      assert s == [sep] + b;
      assert s[1..] == b;
      SplitWithoutSeparator(b, sep);
    } else {
      assert s[0] == a[0];
      assert s[1..] == a[1..] + [sep] + b;
      SplitAfterLastSeparator(a[1..], b, sep);
    }
  }

  /** A string that holds the delimiter is some text, the last delimiter, and text without it. */
  lemma {:induction false} LastSeparator(s: string, sep: char) returns (a: string, b: string)
    requires sep in s
    ensures s == a + [sep] + b && sep !in b
  {
    var n := |s| - 1;
    if s[n] == sep {
      a, b := s[..n], [];
      assert s == s[..n] + [s[n]];
    } else {
      assert sep in s[..n] by {
        var i :| 0 <= i < |s| && s[i] == sep;
        assert i < n && s[..n][i] == sep;
      }
      var a', b' := LastSeparator(s[..n], sep);
      a, b := a', b' + [s[n]];
      assert s == s[..n] + [s[n]];
    }
  }

  /** The last piece of a header is the text after its last space (all of it without one). */
  lemma LastSegment(h: string)
    ensures var parts := Split(h, ' ');
            var token := parts[|parts| - 1];
            ' ' !in token && (h == token || exists prefix :: h == prefix + " " + token)
  {
    if ' ' in h {
      var a, b := LastSeparator(h, ' ');
      SplitAfterLastSeparator(a, b, ' ');
      assert h == a + " " + b;
    } else {
      SplitWithoutSeparator(h, ' ');
    }
  }

  /** `hentUtBearerToken`: the last space-separated piece of the `Authorization` header. The
      scheme word is not checked. */
  function HentUtBearerToken(authorization: Option<string>): (r: Result<string, Exception>)
    ensures authorization.None? <==> r.Err?
    ensures r.Err? ==> r.error == NoTokenFound
    ensures r.Ok? ==> ' ' !in r.value &&
                      (authorization.value == r.value ||
                       exists prefix :: authorization.value == prefix + " " + r.value)
  {
    match authorization
    case None => Err(NoTokenFound)
    case Some(h) =>
      var parts := Split(h, ' ');
      LastSegment(h);
      Ok(parts[|parts| - 1])
  }

  /** A header in the form `<scheme> <token>` of section 2.1 of RFC 6750 yields the token. */
  lemma BearerHeaderYieldsToken(scheme: string, token: string)
    requires ' ' !in token
    ensures HentUtBearerToken(Some(scheme + " " + token)) == Ok(token)
  {
    SplitAfterLastSeparator(scheme, token, ' ');
    assert scheme + " " + token == scheme + [' '] + token;
  }

  /** `hentNavIdentClaim`. */
  function HentNavIdentClaim(claim: Option<string>): (r: Result<string, Exception>)
    ensures r.Ok? <==> claim.Some?
    ensures r.Ok? ==> r.value == claim.value
    ensures r.Err? ==> r.error.kind == Runtime &&
                       Respond(r.error) == TextResponse(InternalServerErrorStatus,
                                                        "500: " + "Klarte ikke å hente NAVident claim fra tokenet")
  {
    match claim
    case None => Err(NoNavIdentClaim)
    case Some(c) => Ok(c)
  }

  // ---------------------------------------------------------------- payload builders

  /** `lagPdfgenPayload`, given the formatted timestamp. */
  function LagPdfgenPayload(metadata: Metadata, innhold: AktivitetsplanInnhold, formatertTidspunkt: string): PdfgenPayload
  {
    PdfgenPayload(metadata.navn, metadata.fnr, metadata.oppfolgingsperiodeStart, metadata.oppfolgingsperiodeSlutt,
                  innhold.aktiviteter, innhold.dialogtraader, innhold.maal, formatertTidspunkt)
  }

  /** `lagJournalpostData`. */
  function LagJournalpostData(pdf: string, metadata: Metadata, jm: JournalfoeringsMetadata,
                              referanse: Uuid, tidspunkt: Timestamp): JournalpostData
  {
    JournalpostData(pdf, metadata.navn, metadata.fnr, tidspunkt, jm.sakId, jm.fagsaksystem, referanse,
                    metadata.oppfolgingsperiodeStart, metadata.oppfolgingsperiodeSlutt, jm.journalfoerendeEnhet)
  }

  // ---------------------------------------------------------------- /arkiver

  /** The `runCatching` block of `/arkiver`: render, then file the rendered document; an
      exception from either call becomes `DokarkFail("Uventet feil")`. */
  function RenderAndFile(env: Collaborators, token: string, payload: JournalfoeringsPayload,
                         pdfgenPayload: PdfgenPayload, referanse: Uuid, tidspunkt: Timestamp): (r: (DokarkResult, seq<Effect>))
  {
    match env.generatePdf(pdfgenPayload)
    case Throws(_) => (DokarkFail(UnexpectedError), [Rendered(pdfgenPayload)])
    case Returns(FailedPdfGen(m)) => (DokarkFail(m), [Rendered(pdfgenPayload)])
    case Returns(PdfSuccess(pdf)) =>
      var data := LagJournalpostData(pdf, payload.metadata, payload.journalfoeringsMetadata, referanse, tidspunkt);
      var effects := [Rendered(pdfgenPayload), Archived(token, data)];
      match env.opprettJournalpost(token, data)
      case Throws(_) => (DokarkFail(UnexpectedError), effects)
      case Returns(result) => (result, effects)
  }

  /** The steps of `post("/arkiver")`. `now` is `LocalDateTime.now()`, `referanse` is
      `UUID.randomUUID()`, and `kind` is the journal entry type the caller records. */
  function ArkiverSteps(env: Collaborators, req: Request<JournalfoeringsPayload>, now: Timestamp,
                        referanse: Uuid, kind: Journal.JournalfoeringType): Step
  {
    match HentUtBearerToken(req.authorization)
    case Err(e) => Threw(e, [])
    case Ok(token) =>
      match HentNavIdentClaim(req.navIdentClaim)
      case Err(e) => Threw(e, [])
      case Ok(navIdent) =>
        match req.body
        case Err(m) => Threw(Exception(BadRequest, Some(m)), [])
        case Ok(payload) =>
          var pdfgenPayload := LagPdfgenPayload(payload.metadata, payload.aktivitetsplanInnhold, env.formatTidspunkt(now));
          var (dokarkResult, effects) := RenderAndFile(env, token, payload, pdfgenPayload, referanse, now);
          match dokarkResult
          case DokarkFail(m) => Done(Response(InternalServerErrorStatus, Text(m)), effects)
          case DokarkSuccess(journalpostId) =>
            match env.uuidFromString(payload.metadata.oppfolgingsperiodeId)
            case Err(m) => Threw(Exception(IllegalArgument, Some(m)), effects)
            case Ok(periodId) =>
              var entry := Journal.NyJournalfoering(navIdent, payload.metadata.fnr, now, referanse,
                                                    journalpostId, periodId, kind);
              if Journal.FitsColumns(entry) then
                Done(Response(OkStatus, JournalfoeringOutbound(now)), effects + [Stored(entry)])
              else
                Threw(Exception(Other, Some(env.insertErrorMessage)), effects)
  }

  /** `post("/arkiver")` as the client sees it. */
  function Arkiver(env: Collaborators, req: Request<JournalfoeringsPayload>, now: Timestamp,
                   referanse: Uuid, kind: Journal.JournalfoeringType): Handled
  {
    Deliver(ArkiverSteps(env, req, now, referanse, kind))
  }

  /** Without an `Authorization` header nothing is called and the answer is 500. */
  lemma MissingTokenRejected(env: Collaborators, req: Request<JournalfoeringsPayload>, now: Timestamp,
                             referanse: Uuid, kind: Journal.JournalfoeringType)
    requires req.authorization.None?
    ensures Arkiver(env, req, now, referanse, kind) == Handled(Response(500, Text("500: " + "No token found")), [])
  {
  }

  /** Without a `NAVident` claim nothing is called and the answer is 500; the claim is read
      before the body, so this holds whatever the body is. */
  lemma MissingClaimRejected(env: Collaborators, req: Request<JournalfoeringsPayload>, now: Timestamp,
                             referanse: Uuid, kind: Journal.JournalfoeringType)
    requires req.authorization.Some? && req.navIdentClaim.None?
    ensures Arkiver(env, req, now, referanse, kind) ==
            Handled(Response(500, Text("500: " + "Klarte ikke å hente NAVident claim fra tokenet")), [])
  {
  }

  /** A body that cannot be decoded is answered with 400 before anything is called. */
  lemma MalformedBodyRejected(env: Collaborators, req: Request<JournalfoeringsPayload>, now: Timestamp,
                              referanse: Uuid, kind: Journal.JournalfoeringType)
    requires req.authorization.Some? && req.navIdentClaim.Some? && req.body.Err?
    ensures Arkiver(env, req, now, referanse, kind) == Handled(Response(400, Text("400: " + req.body.error)), [])
  {
  }

  /** Once the request is read, the renderer is the first call and is called once, with the
      request's data and the request's timestamp formatted. */
  lemma RendererCalledOnceFirst(env: Collaborators, req: Request<JournalfoeringsPayload>, now: Timestamp,
                                referanse: Uuid, kind: Journal.JournalfoeringType)
    requires req.authorization.Some? && req.navIdentClaim.Some? && req.body.Ok?
    ensures var h := Arkiver(env, req, now, referanse, kind);
            var payload := req.body.value;
            |h.effects| >= 1 &&
            h.effects[0] == Rendered(LagPdfgenPayload(payload.metadata, payload.aktivitetsplanInnhold, env.formatTidspunkt(now))) &&
            forall i :: 1 <= i < |h.effects| ==> !h.effects[i].Rendered?
  {
  }

  /** A renderer failure: the archive is not called, the renderer's message is answered with
      500, and nothing is stored. */
  lemma RenderFailureStopsArchiving(env: Collaborators, req: Request<JournalfoeringsPayload>, now: Timestamp,
                                    referanse: Uuid, kind: Journal.JournalfoeringType, message: string)
    requires req.authorization.Some? && req.navIdentClaim.Some? && req.body.Ok?
    requires var payload := req.body.value;
             env.generatePdf(LagPdfgenPayload(payload.metadata, payload.aktivitetsplanInnhold, env.formatTidspunkt(now)))
               == Returns(FailedPdfGen(message))
    ensures var payload := req.body.value;
            Arkiver(env, req, now, referanse, kind) ==
            Handled(Response(500, Text(message)),
                    [Rendered(LagPdfgenPayload(payload.metadata, payload.aktivitetsplanInnhold, env.formatTidspunkt(now)))])
  {
  }

  /** An exception from the renderer or from the archive is answered with 500 "Uventet feil"
      and nothing is stored. */
  lemma CollaboratorExceptionBecomesUnexpectedError(env: Collaborators, req: Request<JournalfoeringsPayload>, now: Timestamp,
                                                    referanse: Uuid, kind: Journal.JournalfoeringType)
    requires req.authorization.Some? && req.navIdentClaim.Some? && req.body.Ok?
    requires var payload := req.body.value;
             var p := LagPdfgenPayload(payload.metadata, payload.aktivitetsplanInnhold, env.formatTidspunkt(now));
             env.generatePdf(p).Throws? ||
             (env.generatePdf(p).Returns? && env.generatePdf(p).value.PdfSuccess? &&
              env.opprettJournalpost(HentUtBearerToken(req.authorization).value,
                                     LagJournalpostData(env.generatePdf(p).value.pdfByteString, payload.metadata,
                                                        payload.journalfoeringsMetadata, referanse, now)).Throws?)
    ensures Arkiver(env, req, now, referanse, kind).response == Response(500, Text(UnexpectedError))
    ensures StoredEntries(Arkiver(env, req, now, referanse, kind).effects) == []
  {
  }

  /** The whole successful run: render, file, store exactly one entry, answer 200 with the
      timestamp. The entry carries the claim, the payload's national id, the archive's record
      id, the parsed period id, and the same timestamp and reference the archive was sent; the
      archive is sent the rendered document and the payload's data unchanged. */
  lemma SuccessStoresOneEntry(env: Collaborators, req: Request<JournalfoeringsPayload>, now: Timestamp,
                              referanse: Uuid, kind: Journal.JournalfoeringType,
                              pdf: string, journalpostId: string, periodId: Uuid)
    requires req.authorization.Some? && req.navIdentClaim.Some? && req.body.Ok?
    requires var payload := req.body.value;
             var p := LagPdfgenPayload(payload.metadata, payload.aktivitetsplanInnhold, env.formatTidspunkt(now));
             var token := HentUtBearerToken(req.authorization).value;
             env.generatePdf(p) == Returns(PdfSuccess(pdf)) &&
             env.opprettJournalpost(token, LagJournalpostData(pdf, payload.metadata, payload.journalfoeringsMetadata, referanse, now))
               == Returns(DokarkSuccess(journalpostId)) &&
             env.uuidFromString(payload.metadata.oppfolgingsperiodeId) == Ok(periodId)
    requires Journal.FitsColumns(Journal.NyJournalfoering(req.navIdentClaim.value, req.body.value.metadata.fnr, now,
                                                          referanse, journalpostId, periodId, kind))
    ensures var h := Arkiver(env, req, now, referanse, kind);
            var payload := req.body.value;
            var m := payload.metadata;
            var jm := payload.journalfoeringsMetadata;
            h.response == Response(200, JournalfoeringOutbound(now)) &&
            |h.effects| == 3 &&
            h.effects[1] == Archived(HentUtBearerToken(req.authorization).value,
                                     JournalpostData(pdf, m.navn, m.fnr, now, jm.sakId, jm.fagsaksystem, referanse,
                                                     m.oppfolgingsperiodeStart, m.oppfolgingsperiodeSlutt,
                                                     jm.journalfoerendeEnhet)) &&
            StoredEntries(h.effects) ==
              [Journal.NyJournalfoering(req.navIdentClaim.value, m.fnr, now, referanse, journalpostId, periodId, kind)]
  {
    var h := Arkiver(env, req, now, referanse, kind);
    assert h.effects == h.effects[..2] + [h.effects[2]];
    StoredEntriesAppend(h.effects[..2], [h.effects[2]]);
    assert StoredEntries([h.effects[2]]) == [h.effects[2].entry];
  }

  /** Whatever the collaborators answer: at most one entry is stored, and only after the
      archive was called and answered `DokarkSuccess` with that entry's record id; the entry
      and the filed data carry the request's timestamp and reference. Conversely, every 200
      answer stored exactly one entry. */
  lemma AtMostOneEntryAndOnlyAfterFiling(env: Collaborators, req: Request<JournalfoeringsPayload>, now: Timestamp,
                                         referanse: Uuid, kind: Journal.JournalfoeringType)
    ensures var h := Arkiver(env, req, now, referanse, kind);
            |StoredEntries(h.effects)| <= 1 &&
            (|StoredEntries(h.effects)| == 1 ==>
               var entry := StoredEntries(h.effects)[0];
               h.response == Response(200, JournalfoeringOutbound(now)) &&
               entry.opprettetTidspunkt == now && entry.referanse == referanse && entry.kind == kind &&
               |h.effects| == 3 && h.effects[1].Archived? &&
               h.effects[1].data.tidspunkt == now && h.effects[1].data.eksternReferanse == referanse &&
               env.opprettJournalpost(h.effects[1].token, h.effects[1].data) == Returns(DokarkSuccess(entry.journalpostId)))
    ensures var h := Arkiver(env, req, now, referanse, kind);
            h.response.Response? && h.response.status == OkStatus ==> |StoredEntries(h.effects)| == 1
  {
    var h := Arkiver(env, req, now, referanse, kind);
    if |h.effects| == 3 {
      assert h.effects == h.effects[..2] + [h.effects[2]];
      StoredEntriesAppend(h.effects[..2], [h.effects[2]]);
      assert StoredEntries([h.effects[2]]) == (if h.effects[2].Stored? then [h.effects[2].entry] else []);
    }
  }

  /** The archive answered `DokarkSuccess`, but the period id does not parse: the document is
      already filed, nothing is stored, and the `IllegalArgumentException` is answered with 500. */
  lemma FiledButPeriodIdUnparsable(env: Collaborators, req: Request<JournalfoeringsPayload>, now: Timestamp,
                                   referanse: Uuid, kind: Journal.JournalfoeringType,
                                   pdf: string, journalpostId: string, message: string)
    requires req.authorization.Some? && req.navIdentClaim.Some? && req.body.Ok?
    requires var payload := req.body.value;
             var p := LagPdfgenPayload(payload.metadata, payload.aktivitetsplanInnhold, env.formatTidspunkt(now));
             var token := HentUtBearerToken(req.authorization).value;
             env.generatePdf(p) == Returns(PdfSuccess(pdf)) &&
             env.opprettJournalpost(token, LagJournalpostData(pdf, payload.metadata, payload.journalfoeringsMetadata, referanse, now))
               == Returns(DokarkSuccess(journalpostId)) &&
             env.uuidFromString(payload.metadata.oppfolgingsperiodeId) == Err(message)
    ensures var h := Arkiver(env, req, now, referanse, kind);
            var payload := req.body.value;
            h.response == Response(500, Text("500: " + message)) &&
            |h.effects| == 2 &&
            h.effects[1] == Archived(HentUtBearerToken(req.authorization).value,
                                     LagJournalpostData(pdf, payload.metadata, payload.journalfoeringsMetadata, referanse, now)) &&
            StoredEntries(h.effects) == []
  {
    var h := Arkiver(env, req, now, referanse, kind);
    assert h.effects[1..][1..] == [];
  }

  /** `post("/arkiver")` run step by step: the same steps as `ArkiverSteps`, with the journal
      entry appended through the repository. */
  method PostArkiver(journal: Journal.Repository, env: Collaborators, req: Request<JournalfoeringsPayload>,
                     now: Timestamp, referanse: Uuid, kind: Journal.JournalfoeringType) returns (h: Handled)
    modifies journal
    ensures h == Arkiver(env, req, now, referanse, kind)
    ensures journal.rows == old(journal.rows) + StoredEntries(h.effects)
  {
    var tokenResult := HentUtBearerToken(req.authorization);
    if tokenResult.Err? {
      return Deliver(Threw(tokenResult.error, []));
    }
    var token := tokenResult.value;
    var claimResult := HentNavIdentClaim(req.navIdentClaim);
    if claimResult.Err? {
      return Deliver(Threw(claimResult.error, []));
    }
    var navIdent := claimResult.value;
    if req.body.Err? {
      return Deliver(Threw(Exception(BadRequest, Some(req.body.error)), []));
    }
    var payload := req.body.value;

    var pdfgenPayload := LagPdfgenPayload(payload.metadata, payload.aktivitetsplanInnhold, env.formatTidspunkt(now));
    var effects := [Rendered(pdfgenPayload)];
    var dokarkResult: DokarkResult;
    var pdfCall := env.generatePdf(pdfgenPayload);
    if pdfCall.Throws? {
      dokarkResult := DokarkFail(UnexpectedError);
    } else if pdfCall.value.FailedPdfGen? {
      dokarkResult := DokarkFail(pdfCall.value.message);
    } else {
      var data := LagJournalpostData(pdfCall.value.pdfByteString, payload.metadata,
                                     payload.journalfoeringsMetadata, referanse, now);
      effects := effects + [Archived(token, data)];
      var archiveCall := env.opprettJournalpost(token, data);
      dokarkResult := if archiveCall.Throws? then DokarkFail(UnexpectedError) else archiveCall.value;
      assert effects == [Rendered(pdfgenPayload), Archived(token, data)];
    }
    assert (dokarkResult, effects) == RenderAndFile(env, token, payload, pdfgenPayload, referanse, now);
    assert StoredEntries(effects) == [] by {
      assert StoredEntries([]) == [];
      if |effects| == 2 {
        assert effects[1..][1..] == [];
      }
    }

    if dokarkResult.DokarkFail? {
      return Handled(Response(InternalServerErrorStatus, Text(dokarkResult.message)), effects);
    }
    var periodResult := env.uuidFromString(payload.metadata.oppfolgingsperiodeId);
    if periodResult.Err? {
      return Deliver(Threw(Exception(IllegalArgument, Some(periodResult.error)), effects));
    }
    var entry := Journal.NyJournalfoering(navIdent, payload.metadata.fnr, now, referanse,
                                          dokarkResult.journalpostId, periodResult.value, kind);
    var outcome := journal.LagreJournalfoering(entry);
    if outcome.Err? {
      return Deliver(Threw(Exception(Other, Some(env.insertErrorMessage)), effects));
    }
    h := Handled(Response(OkStatus, JournalfoeringOutbound(now)), effects + [Stored(entry)]);
    StoredEntriesAppend(effects, [Stored(entry)]);
    assert StoredEntries([Stored(entry)]) == [entry];
  }

  // ---------------------------------------------------------------- /forhaandsvisning

  /** `sortedByDescending { it.opprettetTidspunkt }.firstOrNull()?.opprettetTidspunkt`: the
      latest creation time among the rows, or none for no rows. */
  function SisteJournalfoert(rows: seq<Journal.NyJournalfoering>): (r: Option<Timestamp>)
    ensures r.None? <==> rows == []
    ensures r.Some? ==> exists i :: 0 <= i < |rows| && rows[i].opprettetTidspunkt == r.value
    ensures r.Some? ==> forall i :: 0 <= i < |rows| ==> rows[i].opprettetTidspunkt <= r.value
  {
    if rows == [] then None
    else
      var rest := SisteJournalfoert(rows[1..]);
      if rest.None? || rows[0].opprettetTidspunkt >= rest.value then Some(rows[0].opprettetTidspunkt)
      else
        assert forall i :: 1 <= i < |rows| ==> rows[i] == rows[1..][i - 1];
        rest
  }

  /** Everything `/forhaandsvisning` does before it branches on the renderer's answer: decode,
      render, parse the period id, look up the period's entries of kind `kind`. */
  function PreviewPrelude(env: Collaborators, journal: seq<Journal.NyJournalfoering>,
                          body: Result<ForhaandsvisningPayload, string>, now: Timestamp,
                          kind: Journal.JournalfoeringType): Result<(PdfgenResult, Option<Timestamp>, seq<Effect>), Step>
  {
    match body
    case Err(m) => Err(Threw(Exception(BadRequest, Some(m)), []))
    case Ok(payload) =>
      var pdfgenPayload := LagPdfgenPayload(payload.metadata, payload.aktivitetsplanInnhold, env.formatTidspunkt(now));
      match env.generatePdf(pdfgenPayload)
      case Throws(e) => Err(Threw(e, [Rendered(pdfgenPayload)]))
      case Returns(pdfResult) =>
        match env.uuidFromString(payload.metadata.oppfolgingsperiodeId)
        case Err(m) => Err(Threw(Exception(IllegalArgument, Some(m)), [Rendered(pdfgenPayload)]))
        case Ok(periodId) =>
          var siste := SisteJournalfoert(Journal.Select(journal, Journal.ByPeriod(periodId), kind));
          Ok((pdfResult, siste, [Rendered(pdfgenPayload), LookedUp(periodId)]))
  }

  /** `post("/forhaandsvisning")` as written: on `FailedPdfGen` the handler builds a
      `DokarkFail` value, discards it, and returns without responding. */
  function ForhaandsvisningAsWritten(env: Collaborators, journal: seq<Journal.NyJournalfoering>,
                                     body: Result<ForhaandsvisningPayload, string>, now: Timestamp,
                                     kind: Journal.JournalfoeringType): Handled
  {
    match PreviewPrelude(env, journal, body, now, kind)
    case Err(step) => Deliver(step)
    case Ok((pdfResult, siste, effects)) =>
      match pdfResult
      case PdfSuccess(pdf) => Handled(Response(OkStatus, ForhaandsvisningOutbound(pdf, siste, None)), effects)
      case FailedPdfGen(_) => Handled(NoResponse, effects)
  }

  /** `post("/forhaandsvisning")` as evidently intended: a renderer failure is answered with
      500 and the renderer's message, as `/arkiver` answers a `DokarkFail`. */
  function Forhaandsvisning(env: Collaborators, journal: seq<Journal.NyJournalfoering>,
                            body: Result<ForhaandsvisningPayload, string>, now: Timestamp,
                            kind: Journal.JournalfoeringType): Handled
  {
    match PreviewPrelude(env, journal, body, now, kind)
    case Err(step) => Deliver(step)
    case Ok((pdfResult, siste, effects)) =>
      match pdfResult
      case PdfSuccess(pdf) => Handled(Response(OkStatus, ForhaandsvisningOutbound(pdf, siste, None)), effects)
      case FailedPdfGen(m) => Handled(Response(InternalServerErrorStatus, Text(m)), effects)
  }

  /** As written, a renderer failure leaves the request unanswered by the handler. */
  lemma PreviewRenderFailureUnanswered(env: Collaborators, journal: seq<Journal.NyJournalfoering>,
                                       payload: ForhaandsvisningPayload, now: Timestamp,
                                       kind: Journal.JournalfoeringType, message: string, periodId: Uuid)
    requires env.generatePdf(LagPdfgenPayload(payload.metadata, payload.aktivitetsplanInnhold, env.formatTidspunkt(now)))
               == Returns(FailedPdfGen(message))
    requires env.uuidFromString(payload.metadata.oppfolgingsperiodeId) == Ok(periodId)
    ensures ForhaandsvisningAsWritten(env, journal, Ok(payload), now, kind).response == NoResponse
  {
  }

  /** Corrected, the same failure is answered with 500 and the renderer's message. */
  lemma PreviewRenderFailureAnswered(env: Collaborators, journal: seq<Journal.NyJournalfoering>,
                                     payload: ForhaandsvisningPayload, now: Timestamp,
                                     kind: Journal.JournalfoeringType, message: string, periodId: Uuid)
    requires env.generatePdf(LagPdfgenPayload(payload.metadata, payload.aktivitetsplanInnhold, env.formatTidspunkt(now)))
               == Returns(FailedPdfGen(message))
    requires env.uuidFromString(payload.metadata.oppfolgingsperiodeId) == Ok(periodId)
    ensures Forhaandsvisning(env, journal, Ok(payload), now, kind).response == Response(500, Text(message))
  {
  }

  /** The two versions answer alike whenever the renderer does not report a failure. */
  lemma PreviewVersionsAgreeOtherwise(env: Collaborators, journal: seq<Journal.NyJournalfoering>,
                                      body: Result<ForhaandsvisningPayload, string>, now: Timestamp,
                                      kind: Journal.JournalfoeringType)
    requires PreviewPrelude(env, journal, body, now, kind).Ok? ==>
             PreviewPrelude(env, journal, body, now, kind).value.0.PdfSuccess?
    ensures Forhaandsvisning(env, journal, body, now, kind) == ForhaandsvisningAsWritten(env, journal, body, now, kind)
  {
  }

  /** What a preview answer `h` promises: it stores no journal entry and never calls the
      archive; once the body is decoded, the renderer is the first call and is called once;
      and a 200 answer carries the rendered document, the latest creation time among the
      period's entries of kind `kind` (none when there are none) and no cache id. */
  predicate ReadOnlyPreview(h: Handled, env: Collaborators, journal: seq<Journal.NyJournalfoering>,
                            body: Result<ForhaandsvisningPayload, string>, now: Timestamp,
                            kind: Journal.JournalfoeringType)
  {
    StoredEntries(h.effects) == [] &&
    (forall e :: e in h.effects ==> !e.Archived?) &&
    (body.Ok? ==>
       |h.effects| >= 1 &&
       h.effects[0] == Rendered(LagPdfgenPayload(body.value.metadata, body.value.aktivitetsplanInnhold,
                                                 env.formatTidspunkt(now))) &&
       forall i :: 1 <= i < |h.effects| ==> !h.effects[i].Rendered?) &&
    (h.response.Response? && h.response.status == OkStatus ==>
       body.Ok? &&
       var payload := body.value;
       var p := LagPdfgenPayload(payload.metadata, payload.aktivitetsplanInnhold, env.formatTidspunkt(now));
       env.generatePdf(p).Returns? && env.generatePdf(p).value.PdfSuccess? &&
       env.uuidFromString(payload.metadata.oppfolgingsperiodeId).Ok? &&
       var periodId := env.uuidFromString(payload.metadata.oppfolgingsperiodeId).value;
       h.response.body == ForhaandsvisningOutbound(
         env.generatePdf(p).value.pdfByteString,
         SisteJournalfoert(Journal.Select(journal, Journal.ByPeriod(periodId), kind)),
         None))
  }

  /** A preview whose renderer succeeds and whose period id parses is answered 200 by both
      versions, with the rendered document and the latest creation time of the period. */
  lemma PreviewSucceeds(env: Collaborators, journal: seq<Journal.NyJournalfoering>,
                        payload: ForhaandsvisningPayload, now: Timestamp,
                        kind: Journal.JournalfoeringType, pdf: string, periodId: Uuid)
    requires env.generatePdf(LagPdfgenPayload(payload.metadata, payload.aktivitetsplanInnhold, env.formatTidspunkt(now)))
               == Returns(PdfSuccess(pdf))
    requires env.uuidFromString(payload.metadata.oppfolgingsperiodeId) == Ok(periodId)
    ensures var answer := Response(OkStatus, ForhaandsvisningOutbound(
                            pdf, SisteJournalfoert(Journal.Select(journal, Journal.ByPeriod(periodId), kind)), None));
            ForhaandsvisningAsWritten(env, journal, Ok(payload), now, kind).response == answer &&
            Forhaandsvisning(env, journal, Ok(payload), now, kind).response == answer
  {
  }

  /** Both the preview as written and the corrected preview only read: neither stores a
      journal entry or calls the archive, each calls the renderer once and first, and each
      200 answer is the rendered document with the latest creation time of the period. */
  lemma PreviewReadsOnly(env: Collaborators, journal: seq<Journal.NyJournalfoering>,
                         body: Result<ForhaandsvisningPayload, string>, now: Timestamp,
                         kind: Journal.JournalfoeringType)
    ensures ReadOnlyPreview(ForhaandsvisningAsWritten(env, journal, body, now, kind), env, journal, body, now, kind)
    ensures ReadOnlyPreview(Forhaandsvisning(env, journal, body, now, kind), env, journal, body, now, kind)
  {
    assert StoredEntries([]) == [];
    var prelude := PreviewPrelude(env, journal, body, now, kind);
    if prelude.Ok? {
      var effects := prelude.value.2;
      assert |effects| == 2 && !effects[0].Stored? && !effects[1].Stored?;
      assert effects[1..][1..] == [];
    }
  }

  /** `post("/forhaandsvisning")` run step by step against the repository, which it only
      reads (the method modifies nothing). */
  method PostForhaandsvisning(journal: Journal.Repository, env: Collaborators,
                              body: Result<ForhaandsvisningPayload, string>, now: Timestamp,
                              kind: Journal.JournalfoeringType) returns (h: Handled)
    ensures h == Forhaandsvisning(env, journal.rows, body, now, kind)
  {
    if body.Err? {
      return Deliver(Threw(Exception(BadRequest, Some(body.error)), []));
    }
    var payload := body.value;
    var pdfgenPayload := LagPdfgenPayload(payload.metadata, payload.aktivitetsplanInnhold, env.formatTidspunkt(now));
    var pdfCall := env.generatePdf(pdfgenPayload);
    if pdfCall.Throws? {
      return Deliver(Threw(pdfCall.exception, [Rendered(pdfgenPayload)]));
    }
    var periodResult := env.uuidFromString(payload.metadata.oppfolgingsperiodeId);
    if periodResult.Err? {
      return Deliver(Threw(Exception(IllegalArgument, Some(periodResult.error)), [Rendered(pdfgenPayload)]));
    }
    var entries := journal.HentJournalposterForPeriode(periodResult.value, kind);
    var siste := SisteJournalfoert(entries);
    var effects := [Rendered(pdfgenPayload), LookedUp(periodResult.value)];
    match pdfCall.value
    case PdfSuccess(pdf) =>
      h := Handled(Response(OkStatus, ForhaandsvisningOutbound(pdf, siste, None)), effects);
    case FailedPdfGen(m) =>
      h := Handled(Response(InternalServerErrorStatus, Text(m)), effects);
  }
}
