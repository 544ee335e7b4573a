/** The short-code allocator and the two lookups of UrlService.

    The repository is a map from short code to destination URL. Whether a save
    succeeds, collides (DataIntegrityViolationException) or fails otherwise is
    the database's verdict and enters as an input, one verdict per save: the
    entity declares no unique constraint, so a collision is something the store
    reports, not something the model derives. The random generator enters as
    the sequence of codes it would hand out, one per attempt. */
module UrlService {
  import opened Wrappers

  const MaxRetryAttempts: nat := 5
  const ShortCodeLength: nat := 8
  const BaseUrl: string := "http://localhost:8080"

  predicate IsAlphanumeric(c: char) {
    'a' <= c <= 'z' || 'A' <= c <= 'Z' || '0' <= c <= '9'
  }

  /** What RandomStringUtils.randomAlphanumeric(SHORT_CODE_LENGTH) returns. */
  predicate IsShortCode(s: string) {
    |s| == ShortCodeLength && forall i :: 0 <= i < |s| ==> IsAlphanumeric(s[i])
  }

  type ShortCode = s: string | IsShortCode(s) witness "aaaaaaaa"

  /** A stored row: destination URL and its short code (the generated id is left out). */
  datatype UrlEntity = UrlEntity(mainUrl: string, shortCode: string)

  /** The database's answer to one save. */
  datatype SaveVerdict =
    | Stored
    | IntegrityViolation           // DataIntegrityViolationException: retried
    | StoreFailure(reason: string) // any other exception: propagates unretried

  datatype ShortenResponse = ShortenResponse(shortCode: string, shortUrl: string)

  datatype ShortenError =
    | InvalidUrl(url: string)            // InvalidUrlException
    | GenerationExhausted(attempts: nat) // UrlGenerationException
    | SaveFailed(reason: string)         // the uncaught exception from save

  datatype LookupError = UrlNotFound(shortCode: string)

  /** The repository, with a ghost log of every entity handed to save. */
  class UrlRepository {
    var rows: map<string, string>
    ghost var saveCalls: seq<UrlEntity>

    constructor ()
      ensures rows == map[] && saveCalls == []
    {
      rows := map[];
      saveCalls := [];
    }

    /** urlRepository.save(entity), answered by the database with `verdict`:
        only a stored entity changes the rows. */
    method Save(entity: UrlEntity, verdict: SaveVerdict)
      modifies this
      ensures saveCalls == old(saveCalls) + [entity]
      ensures rows == if verdict.Stored? then old(rows)[entity.shortCode := entity.mainUrl] else old(rows)
    {
      saveCalls := saveCalls + [entity];
      if verdict.Stored? {
        rows := rows[entity.shortCode := entity.mainUrl];
      }
    }
  }

  function ShortUrlFor(code: string): (u: string)
    ensures |u| == |BaseUrl| + 1 + |code| && u[..|BaseUrl|] == BaseUrl && u[|BaseUrl|] == '/' && u[|BaseUrl| + 1..] == code
  {
    BaseUrl + "/" + code
  }

  /** The outcome of a shorten call: its result, the rows afterwards, and the
      entities handed to save, in order. */
  datatype Allocation = Allocation(result: Result<ShortenResponse, ShortenError>, rows: map<string, string>, saved: seq<UrlEntity>)

  predicate EnoughDraws(codes: seq<ShortCode>, verdicts: seq<SaveVerdict>) {
    |codes| >= MaxRetryAttempts && |verdicts| >= MaxRetryAttempts
  }

  /** Attempts `attempt` .. MAX_RETRY_ATTEMPTS of the retry loop, from `rows`. */
  function AllocateFrom(rows: map<string, string>, url: string, codes: seq<ShortCode>, verdicts: seq<SaveVerdict>, attempt: nat): (a: Allocation)
    requires EnoughDraws(codes, verdicts)
    requires 1 <= attempt <= MaxRetryAttempts
    ensures 1 <= |a.saved| <= MaxRetryAttempts - attempt + 1
    ensures forall k :: 0 <= k < |a.saved| ==> a.saved[k] == UrlEntity(url, codes[attempt - 1 + k])
    ensures a.result.Success? ==> a.rows == rows[a.result.value.shortCode := url]
    ensures a.result.Failure? ==> a.rows == rows
    decreases MaxRetryAttempts - attempt
  {
    var code := codes[attempt - 1];
    var entity := UrlEntity(url, code);
    match verdicts[attempt - 1]
    case Stored => Allocation(Success(ShortenResponse(code, ShortUrlFor(code))), rows[code := url], [entity])
    case StoreFailure(reason) => Allocation(Failure(SaveFailed(reason)), rows, [entity])
    case IntegrityViolation =>
      if attempt == MaxRetryAttempts then
        Allocation(Failure(GenerationExhausted(MaxRetryAttempts)), rows, [entity])
      else
        var rest := AllocateFrom(rows, url, codes, verdicts, attempt + 1);
        rest.(saved := [entity] + rest.saved)
  }

  /** UrlService.shortenUrl as a function of the rows, the URL, the validator,
      the generator's codes and the database's verdicts. */
  function Shorten(rows: map<string, string>, url: string, isValid: string -> bool, codes: seq<ShortCode>, verdicts: seq<SaveVerdict>): (a: Allocation)
    requires EnoughDraws(codes, verdicts)
    ensures |a.saved| <= MaxRetryAttempts
    ensures forall k :: 0 <= k < |a.saved| ==> a.saved[k] == UrlEntity(url, codes[k])
    ensures !isValid(url) <==> a.result == Failure(InvalidUrl(url))
    ensures !isValid(url) ==> a.saved == [] && a.rows == rows
  {
    if !isValid(url) then Allocation(Failure(InvalidUrl(url)), rows, [])
    else AllocateFrom(rows, url, codes, verdicts, 1)
  }

  /** One collision before the last attempt hands over to the next attempt. */
  lemma CollisionStep(rows: map<string, string>, url: string, codes: seq<ShortCode>, verdicts: seq<SaveVerdict>, attempt: nat)
    requires EnoughDraws(codes, verdicts)
    requires 1 <= attempt < MaxRetryAttempts && verdicts[attempt - 1] == IntegrityViolation
    ensures var rest := AllocateFrom(rows, url, codes, verdicts, attempt + 1);
      AllocateFrom(rows, url, codes, verdicts, attempt) == rest.(saved := [UrlEntity(url, codes[attempt - 1])] + rest.saved)
  {
  }

  /** UrlService.shortenUrl: validate, then up to MAX_RETRY_ATTEMPTS saves. */
  method ShortenUrl(repo: UrlRepository, url: string, isValid: string -> bool, codes: seq<ShortCode>, verdicts: seq<SaveVerdict>)
    returns (r: Result<ShortenResponse, ShortenError>)
    requires EnoughDraws(codes, verdicts)
    modifies repo
    ensures var a := Shorten(old(repo.rows), url, isValid, codes, verdicts);
      r == a.result && repo.rows == a.rows && repo.saveCalls == old(repo.saveCalls) + a.saved
  {
    if !isValid(url) {
      return Failure(InvalidUrl(url));
    }
    ghost var rows0, log0 := repo.rows, repo.saveCalls;
    ghost var whole := AllocateFrom(rows0, url, codes, verdicts, 1);
    ghost var tried: seq<UrlEntity> := [];
    var attempt := 1;
    while attempt <= MaxRetryAttempts
      invariant 1 <= attempt <= MaxRetryAttempts
      invariant repo.rows == rows0 && repo.saveCalls == log0 + tried
      invariant var rest := AllocateFrom(rows0, url, codes, verdicts, attempt);
        whole == rest.(saved := tried + rest.saved)
      decreases MaxRetryAttempts - attempt
    {
      // the generator's draw for this attempt
      var shortCode := codes[attempt - 1];
      var entity := UrlEntity(url, shortCode);
      var verdict := verdicts[attempt - 1];
      repo.Save(entity, verdict);
      tried := tried + [entity];
      ghost var here := AllocateFrom(rows0, url, codes, verdicts, attempt);
      match verdict {
        case Stored =>
          assert here == Allocation(Success(ShortenResponse(shortCode, ShortUrlFor(shortCode))), rows0[shortCode := url], [entity]);
          return Success(ShortenResponse(shortCode, ShortUrlFor(shortCode)));
        case StoreFailure(reason) =>
          assert here == Allocation(Failure(SaveFailed(reason)), rows0, [entity]);
          return Failure(SaveFailed(reason));
        case IntegrityViolation =>
          if attempt == MaxRetryAttempts {
            assert here == Allocation(Failure(GenerationExhausted(MaxRetryAttempts)), rows0, [entity]);
            return Failure(GenerationExhausted(MaxRetryAttempts));
          }
          CollisionStep(rows0, url, codes, verdicts, attempt);
      }
      attempt := attempt + 1;
    }
    // the throw after the loop cannot be reached
    assert false;
    r := Failure(GenerationExhausted(MaxRetryAttempts));
  }

  /** UrlService.getRedirectionUri (without its cache): the stored URL, or
      UrlNotFoundException. */
  function GetRedirectionUri(rows: map<string, string>, shortCode: string): (r: Result<string, LookupError>)
    ensures r.Success? <==> shortCode in rows
    ensures r.Success? ==> r.value == rows[shortCode]
    ensures r.Failure? ==> r.error == UrlNotFound(shortCode)
  {
    if shortCode in rows then Success(rows[shortCode]) else Failure(UrlNotFound(shortCode))
  }

  /** UrlService.getUrlEntityByShortCode: the entity, or null. */
  function GetUrlEntityByShortCode(rows: map<string, string>, shortCode: string): (r: Option<UrlEntity>)
    ensures r.Some? <==> shortCode in rows
    ensures r.Some? ==> r.value == UrlEntity(rows[shortCode], shortCode)
  {
    if shortCode in rows then Some(UrlEntity(rows[shortCode], shortCode)) else None
  }

  // ---------------------------------------------------------------------------
  // Properties of the allocator

  /** The empty string is rejected without a save, given the validator rejects it. */
  lemma EmptyUrlRejected(rows: map<string, string>, isValid: string -> bool, codes: seq<ShortCode>, verdicts: seq<SaveVerdict>)
    requires EnoughDraws(codes, verdicts)
    requires !isValid("")
    ensures var a := Shorten(rows, "", isValid, codes, verdicts);
      a.result == Failure(InvalidUrl("")) && a.saved == [] && a.rows == rows
  {
  }

  predicate CollidedBefore(verdicts: seq<SaveVerdict>, k: nat)
    requires k <= |verdicts|
  {
    forall j :: 0 <= j < k ==> verdicts[j] == IntegrityViolation
  }

  lemma {:induction false} StoredAfterCollisions(rows: map<string, string>, url: string, codes: seq<ShortCode>, verdicts: seq<SaveVerdict>, attempt: nat, k: nat)
    requires EnoughDraws(codes, verdicts)
    requires 1 <= attempt <= k + 1 <= MaxRetryAttempts
    requires CollidedBefore(verdicts, k) && verdicts[k] == Stored
    ensures var a := AllocateFrom(rows, url, codes, verdicts, attempt);
      && a.result == Success(ShortenResponse(codes[k], ShortUrlFor(codes[k])))
      && a.rows == rows[codes[k] := url]
      && |a.saved| == k + 2 - attempt
    decreases MaxRetryAttempts - attempt
  {
    if attempt <= k {
      StoredAfterCollisions(rows, url, codes, verdicts, attempt + 1, k);
    }
  }

  /** Retry bound: after collisions on attempts 1..k, a save accepted on
      attempt k+1 (k < 5) gives that attempt's code and short URL, adds
      exactly that row, and no save follows it. */
  lemma FirstStoredAttemptWins(rows: map<string, string>, url: string, isValid: string -> bool, codes: seq<ShortCode>, verdicts: seq<SaveVerdict>, k: nat)
    requires EnoughDraws(codes, verdicts)
    requires isValid(url)
    requires k < MaxRetryAttempts && CollidedBefore(verdicts, k) && verdicts[k] == Stored
    ensures var a := Shorten(rows, url, isValid, codes, verdicts);
      && a.result == Success(ShortenResponse(codes[k], BaseUrl + "/" + codes[k]))
      && a.rows == rows[codes[k] := url]
      && |a.saved| == k + 1
  {
    StoredAfterCollisions(rows, url, codes, verdicts, 1, k);
  }

  lemma {:induction false} FailureAfterCollisions(rows: map<string, string>, url: string, codes: seq<ShortCode>, verdicts: seq<SaveVerdict>, attempt: nat, k: nat)
    requires EnoughDraws(codes, verdicts)
    requires 1 <= attempt <= k + 1 <= MaxRetryAttempts
    requires CollidedBefore(verdicts, k) && verdicts[k].StoreFailure?
    ensures var a := AllocateFrom(rows, url, codes, verdicts, attempt);
      && a.result == Failure(SaveFailed(verdicts[k].reason))
      && a.rows == rows
      && |a.saved| == k + 2 - attempt
    decreases MaxRetryAttempts - attempt
  {
    if attempt <= k {
      FailureAfterCollisions(rows, url, codes, verdicts, attempt + 1, k);
    }
  }

  /** A save failing for any other reason ends the call at once, with that
      failure and no row added. */
  lemma OtherFailureNotRetried(rows: map<string, string>, url: string, isValid: string -> bool, codes: seq<ShortCode>, verdicts: seq<SaveVerdict>, k: nat)
    requires EnoughDraws(codes, verdicts)
    requires isValid(url)
    requires k < MaxRetryAttempts && CollidedBefore(verdicts, k) && verdicts[k].StoreFailure?
    ensures var a := Shorten(rows, url, isValid, codes, verdicts);
      a.result == Failure(SaveFailed(verdicts[k].reason)) && a.rows == rows && |a.saved| == k + 1
  {
    FailureAfterCollisions(rows, url, codes, verdicts, 1, k);
  }

  lemma {:induction false} ExhaustedFrom(rows: map<string, string>, url: string, codes: seq<ShortCode>, verdicts: seq<SaveVerdict>, attempt: nat)
    requires EnoughDraws(codes, verdicts)
    requires 1 <= attempt <= MaxRetryAttempts
    requires CollidedBefore(verdicts, MaxRetryAttempts)
    ensures var a := AllocateFrom(rows, url, codes, verdicts, attempt);
      a.result == Failure(GenerationExhausted(MaxRetryAttempts)) && a.rows == rows
      && |a.saved| == MaxRetryAttempts - attempt + 1
    decreases MaxRetryAttempts - attempt
  {
    if attempt < MaxRetryAttempts {
      ExhaustedFrom(rows, url, codes, verdicts, attempt + 1);
    }
  }

  /** Five collisions in a row end in UrlGenerationException after exactly
      five saves, with no row added. */
  lemma CollisionsExhaust(rows: map<string, string>, url: string, isValid: string -> bool, codes: seq<ShortCode>, verdicts: seq<SaveVerdict>)
    requires EnoughDraws(codes, verdicts)
    requires isValid(url)
    requires CollidedBefore(verdicts, MaxRetryAttempts)
    ensures var a := Shorten(rows, url, isValid, codes, verdicts);
      a.result == Failure(GenerationExhausted(MaxRetryAttempts)) && a.rows == rows && |a.saved| == MaxRetryAttempts
  {
    ExhaustedFrom(rows, url, codes, verdicts, 1);
  }

  /** Every code the call hands out is an 8-character alphanumeric code. */
  lemma IssuedCodeShape(rows: map<string, string>, url: string, isValid: string -> bool, codes: seq<ShortCode>, verdicts: seq<SaveVerdict>)
    requires EnoughDraws(codes, verdicts)
    ensures var a := Shorten(rows, url, isValid, codes, verdicts);
      a.result.Success? ==> IsShortCode(a.result.value.shortCode) && a.result.value.shortUrl == ShortUrlFor(a.result.value.shortCode)
  {
    var a := Shorten(rows, url, isValid, codes, verdicts);
    if a.result.Success? {
      IssuedCodeShapeFrom(rows, url, codes, verdicts, 1);
    }
  }

  lemma {:induction false} IssuedCodeShapeFrom(rows: map<string, string>, url: string, codes: seq<ShortCode>, verdicts: seq<SaveVerdict>, attempt: nat)
    requires EnoughDraws(codes, verdicts)
    requires 1 <= attempt <= MaxRetryAttempts
    ensures var a := AllocateFrom(rows, url, codes, verdicts, attempt);
      a.result.Success? ==> exists k :: attempt - 1 <= k < MaxRetryAttempts && a.result.value == ShortenResponse(codes[k], ShortUrlFor(codes[k]))
    decreases MaxRetryAttempts - attempt
  {
    if verdicts[attempt - 1] == IntegrityViolation && attempt < MaxRetryAttempts {
      IssuedCodeShapeFrom(rows, url, codes, verdicts, attempt + 1);
    }
  }

  /** What a database with a unique constraint on the short code would answer:
      it never stores a code that is already present. The source's entity does
      not declare that constraint. */
  predicate EnforcesUniqueCodes(rows: map<string, string>, codes: seq<ShortCode>, verdicts: seq<SaveVerdict>)
    requires EnoughDraws(codes, verdicts)
  {
    forall j :: 0 <= j < MaxRetryAttempts && verdicts[j] == Stored ==> codes[j] !in rows
  }

  lemma {:induction false} IssuedCodeIsDrawn(rows: map<string, string>, url: string, codes: seq<ShortCode>, verdicts: seq<SaveVerdict>, attempt: nat)
    requires EnoughDraws(codes, verdicts)
    requires 1 <= attempt <= MaxRetryAttempts
    ensures var a := AllocateFrom(rows, url, codes, verdicts, attempt);
      a.result.Success? ==> exists j :: attempt - 1 <= j < MaxRetryAttempts && verdicts[j] == Stored && codes[j] == a.result.value.shortCode
    decreases MaxRetryAttempts - attempt
  {
    if verdicts[attempt - 1] == IntegrityViolation && attempt < MaxRetryAttempts {
      IssuedCodeIsDrawn(rows, url, codes, verdicts, attempt + 1);
    }
  }

  /** Round trip and uniqueness: after a successful shorten that issued a new
      code, looking that code up gives the submitted URL byte for byte; and
      when the database refuses duplicate codes, the issued code is always
      new, every link that existed before still resolves as before and
      exactly one link was added. */
  lemma ShortenThenResolve(rows: map<string, string>, url: string, isValid: string -> bool, codes: seq<ShortCode>, verdicts: seq<SaveVerdict>)
    requires EnoughDraws(codes, verdicts)
    ensures var a := Shorten(rows, url, isValid, codes, verdicts);
      a.result.Success? && a.result.value.shortCode !in rows ==>
        GetRedirectionUri(a.rows, a.result.value.shortCode) == Success(url)
    ensures var a := Shorten(rows, url, isValid, codes, verdicts);
      a.result.Success? && EnforcesUniqueCodes(rows, codes, verdicts) ==>
        && a.result.value.shortCode !in rows
        && |a.rows| == |rows| + 1
        && forall c :: c in rows ==> GetRedirectionUri(a.rows, c) == GetRedirectionUri(rows, c)
  {
    var a := Shorten(rows, url, isValid, codes, verdicts);
    if a.result.Success? && EnforcesUniqueCodes(rows, codes, verdicts) {
      IssuedCodeIsDrawn(rows, url, codes, verdicts, 1);
      assert a.result.value.shortCode !in rows;
    }
  }

  /** The two lookups agree: one finds an entity exactly when the other
      resolves, and the URL is the entity's. */
  lemma LookupsAgree(rows: map<string, string>, shortCode: string)
    ensures GetRedirectionUri(rows, shortCode).Success? <==> GetUrlEntityByShortCode(rows, shortCode).Some?
    ensures GetRedirectionUri(rows, shortCode).Success? ==>
      GetRedirectionUri(rows, shortCode).value == GetUrlEntityByShortCode(rows, shortCode).value.mainUrl
  {
  }
}
