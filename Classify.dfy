/**
  * Classification of one review (classify_review): the blank-input short cuts, the
  * single-keyword fast path, and the bounded retry loop around the inference
  * backend with exponential backoff and the mapping of failures to the
  * 'Error' sentinel record.
  */
module Classify {
  import opened Text
  import opened Settings

  /** A classification record: category name to label. */
  type Record = map<string, string>

  /** Every record the engine returns has exactly the eight category keys. */
  predicate WellShaped(r: Record)
  {
    r.Keys == CategorySet
  }

  /** EMPTY_RESULT: every category holds the empty string. */
  const EmptyResult: Record := map c | c in CategorySet :: ""

  /** dict.get(key, '') */
  function Get(m: map<string, string>, key: string): string
  {
    if key in m then m[key] else ""
  }

  const PositiveWords: seq<string> :=
    ["good", "great", "excellent", "amazing", "best", "super", "positive", "happy", "fast"]
  const NegativeWords: seq<string> :=
    ["bad", "worst", "terrible", "horrible", "pathetic", "rude", "cancel", "surge"]

  const PositiveRecord: Record := EmptyResult["Sentiment" := "Positive"]["General/Praise" := "Positive Experience"]
  const NegativeRecord: Record := EmptyResult["Sentiment" := "Negative"]

  /** The keyword shortcut: a cleaned review whose lower-cased text is one token
    * from either vocabulary is decided without the backend. */
  function FastPath(u: Unicode, clean: string): Option<Record>
  {
    var words := Split(u.lower(clean));
    if |words| == 1 && words[0] in PositiveWords then Some(PositiveRecord)
    else if |words| == 1 && words[0] in NegativeWords then Some(NegativeRecord)
    else None
  }

  /** What one attempt of ollama.generate followed by json.loads comes to. */
  datatype Outcome =
    | Ok(fields: map<string, string>)  // a JSON object; each value as str() renders it
    | OkNotObject                      // valid JSON that is not an object: parsed.get raises AttributeError
    | ParseError                       // json.JSONDecodeError
    | NetError                         // ConnectionError or TimeoutError
    | Other(className: string)         // any other exception, by class name

  /** The 'Others' reason of the sentinel record for the kind of the last failure. */
  function FailureLabel(o: Outcome): string
    requires !o.Ok?
  {
    match o
    case OkNotObject => "AttributeError"
    case ParseError => "JSON Parse Error"
    case NetError => "Network Error"
    case Other(name) => name
  }

  /** The sentinel record of an exhausted retry budget. */
  function ErrorRecord(reason: string): Record
  {
    EmptyResult["Sentiment" := "Error"]["Others" := reason]
  }

  /** The record built from a parsed JSON object: every category read with a
    * default of '' and trimmed. */
  function FromFields(fields: map<string, string>): Record
  {
    map c | c in CategorySet :: Strip(Get(fields, c))
  }

  function Pow2(k: nat): nat
  {
    if k == 0 then 1 else 2 * Pow2(k - 1)
  }

  /** The delay slept after the failed attempt with 0-based number k. */
  function Backoff(cfg: Config, k: nat): nat
  {
    cfg.retryDelay * Pow2(k)
  }

  /** The delays slept after n failed attempts numbered from k on. */
  function BackoffsFrom(cfg: Config, k: nat, n: nat): (ds: seq<nat>)
    ensures |ds| == n && forall j :: 0 <= j < n ==> ds[j] == Backoff(cfg, k + j)
    decreases n
  {
    if n == 0 then [] else [Backoff(cfg, k)] + BackoffsFrom(cfg, k + 1, n - 1)
  }

  /** The delays slept after the first n failed attempts. */
  function Backoffs(cfg: Config, n: nat): seq<nat>
  {
    BackoffsFrom(cfg, 0, n)
  }

  /** The observable result of classifying one review: the record, the number of
    * backend calls, and the delays slept between them. */
  datatype Trace = Trace(record: Record, attempts: nat, slept: seq<nat>)

  /** The retry loop from attempt k on; backend(j) is what attempt j yields. */
  function LlmFrom(cfg: Config, backend: nat -> Outcome, k: nat): Trace
    decreases cfg.maxRetries - k
  {
    if k >= cfg.maxRetries then Trace(EmptyResult, 0, [])
    else
      var o := backend(k);
      if o.Ok? then Trace(FromFields(o.fields), 1, [])
      else if k < cfg.maxRetries - 1 then
        var t := LlmFrom(cfg, backend, k + 1);
        Trace(t.record, t.attempts + 1, [Backoff(cfg, k)] + t.slept)
      else Trace(ErrorRecord(FailureLabel(o)), 1, [])
  }

  /** A trace preceded by failed attempts that slept the delays in pre. */
  function After(pre: seq<nat>, t: Trace): Trace
  {
    Trace(t.record, |pre| + t.attempts, pre + t.slept)
  }

  /** The loop that copies each category of a parsed object into the result
    * record, overwriting every key. */
  method ReadCategories(start: Record, fields: map<string, string>) returns (record: Record)
    requires WellShaped(start)
    ensures record == FromFields(fields)
  {
    record := start;
    for i := 0 to |Categories|
      invariant record.Keys == CategorySet
      invariant forall j :: 0 <= j < i ==> record[Categories[j]] == Strip(Get(fields, Categories[j]))
    {
      CategoriesDistinct(i);
      assert forall j :: 0 <= j < i ==> Categories[j] == Categories[..i][j];
      record := record[Categories[i] := Strip(Get(fields, Categories[i]))];
    }
    assert forall c :: c in CategorySet ==> record[c] == FromFields(fields)[c];
  }

  /** What one attempt of the loop does to the trace still to come: a parsed
    * object ends it, a failure before the last attempt sleeps the next delay,
    * the last failure ends it with the error record. */
  lemma AttemptStep(cfg: Config, backend: nat -> Outcome, pre: seq<nat>, k: nat)
    requires k < cfg.maxRetries && |pre| == k
    ensures backend(k).Ok? ==>
      After(pre, LlmFrom(cfg, backend, k)) == Trace(FromFields(backend(k).fields), k + 1, pre)
    ensures !backend(k).Ok? && k < cfg.maxRetries - 1 ==>
      After(pre, LlmFrom(cfg, backend, k)) == After(pre + [Backoff(cfg, k)], LlmFrom(cfg, backend, k + 1))
    ensures !backend(k).Ok? && k == cfg.maxRetries - 1 ==>
      After(pre, LlmFrom(cfg, backend, k)) == Trace(ErrorRecord(FailureLabel(backend(k))), k + 1, pre)
  {
    if !backend(k).Ok? && k < cfg.maxRetries - 1 {
      var t := LlmFrom(cfg, backend, k + 1);
      assert pre + ([Backoff(cfg, k)] + t.slept) == (pre + [Backoff(cfg, k)]) + t.slept;
    } else if !backend(k).Ok? {
      assert pre + [] == pre;
    } else {
      assert pre + [] == pre;
    }
  }

  /** The LLM section of classify_review: up to maxRetries attempts, sleeping
    * between failed ones, returning on the first parsed object or on the last
    * failure. */
  method ClassifyWithBackend(cfg: Config, backend: nat -> Outcome) returns (record: Record, attempts: nat, slept: seq<nat>)
    ensures Trace(record, attempts, slept) == LlmFrom(cfg, backend, 0)
  {
    FixedRecordsWellShaped("");
    record := EmptyResult;
    slept := [];
    var attempt := 0;
    while attempt < cfg.maxRetries
      invariant attempt <= cfg.maxRetries
      invariant |slept| == attempt
      invariant record == EmptyResult
      invariant LlmFrom(cfg, backend, 0) == After(slept, LlmFrom(cfg, backend, attempt))
    {
      var outcome := backend(attempt);
      AttemptStep(cfg, backend, slept, attempt);
      if outcome.Ok? {
        record := ReadCategories(record, outcome.fields);
        attempts := attempt + 1;
        return;
      }
      if attempt < cfg.maxRetries - 1 {
        slept := slept + [Backoff(cfg, attempt)];
        attempt := attempt + 1;
        continue;
      }
      record := record["Sentiment" := "Error"];
      record := record["Others" := FailureLabel(outcome)];
      attempts := attempt + 1;
      return;
    }
    record := EmptyResult;
    attempts := attempt;
  }

  /** Missing or whitespace-only input, tested before any cleaning. */
  predicate IsBlank(review: Option<string>)
  {
    review.None? || Strip(review.value) == ""
  }

  /** classify_review as a function of the review and of what the backend would
    * answer on each attempt. */
  function Classification(cfg: Config, u: Unicode, review: Option<string>, backend: nat -> Outcome): Trace
  {
    if IsBlank(review) then Trace(EmptyResult, 0, [])
    else
      var clean := CleanReviewText(u, review);
      if clean == "" then Trace(EmptyResult, 0, [])
      else match FastPath(u, clean)
        case Some(r) => Trace(r, 0, [])
        case None => LlmFrom(cfg, backend, 0)
  }

  /** classify_review */
  method ClassifyReview(cfg: Config, u: Unicode, review: Option<string>, backend: nat -> Outcome)
    returns (record: Record, attempts: nat, slept: seq<nat>)
    ensures Trace(record, attempts, slept) == Classification(cfg, u, review, backend)
  {
    if review.None? || Strip(review.value) == "" {
      return EmptyResult, 0, [];
    }
    var clean := CleanReviewText(u, review);
    if clean == "" {
      return EmptyResult, 0, [];
    }
    var words := Split(u.lower(clean));
    if |words| == 1 {
      var word := words[0];
      if word in PositiveWords {
        record := EmptyResult;
        record := record["Sentiment" := "Positive"];
        record := record["General/Praise" := "Positive Experience"];
        return record, 0, [];
      } else if word in NegativeWords {
        record := EmptyResult;
        record := record["Sentiment" := "Negative"];
        return record, 0, [];
      }
    }
    record, attempts, slept := ClassifyWithBackend(cfg, backend);
  }

  // ---------------------------------------------------------------------------
  // Record shape

  lemma FixedRecordsWellShaped(reason: string)
    ensures WellShaped(EmptyResult) && WellShaped(PositiveRecord) && WellShaped(NegativeRecord)
    ensures WellShaped(ErrorRecord(reason))
  {
    assert "Sentiment" in CategorySet && "General/Praise" in CategorySet && "Others" in CategorySet by {
      assert Categories[0] == "Sentiment" && Categories[6] == "General/Praise" && Categories[7] == "Others";
    }
  }

  /** Every path of the retry loop ends in a record with exactly the category keys. */
  lemma {:induction false} LlmWellShaped(cfg: Config, backend: nat -> Outcome, k: nat)
    ensures WellShaped(LlmFrom(cfg, backend, k).record)
    decreases cfg.maxRetries - k
  {
    FixedRecordsWellShaped("");
    if k < cfg.maxRetries {
      var o := backend(k);
      if !o.Ok? {
        FixedRecordsWellShaped(FailureLabel(o));
        if k < cfg.maxRetries - 1 {
          LlmWellShaped(cfg, backend, k + 1);
        }
      }
    }
  }

  /** classify_review returns, on every path, a record with exactly the eight
    * category keys, and consults the backend at most maxRetries times. */
  lemma ClassificationWellShaped(cfg: Config, u: Unicode, review: Option<string>, backend: nat -> Outcome)
    ensures WellShaped(Classification(cfg, u, review, backend).record)
    ensures Classification(cfg, u, review, backend).attempts <= cfg.maxRetries
  {
    FixedRecordsWellShaped("");
    LlmWellShaped(cfg, backend, 0);
    LlmSchedule(cfg, backend, 0);
  }

  // ---------------------------------------------------------------------------
  // Retry bound and backoff schedule

  /** From attempt k on, at most maxRetries - k calls are made; every call but
    * the last failed; the j-th sleep is the backoff of attempt k + j; there is
    * no sleep after the last call. */
  lemma {:induction false} LlmSchedule(cfg: Config, backend: nat -> Outcome, k: nat)
    ensures var t := LlmFrom(cfg, backend, k);
      && (t.attempts == 0 || k + t.attempts <= cfg.maxRetries)
      && (k < cfg.maxRetries <==> t.attempts >= 1)
      && |t.slept| == (if t.attempts == 0 then 0 else t.attempts - 1)
      && (forall j :: 0 <= j < |t.slept| ==> t.slept[j] == Backoff(cfg, k + j))
      && (forall j :: k <= j < k + |t.slept| ==> !backend(j).Ok?)
    decreases cfg.maxRetries - k
  {
    if k < cfg.maxRetries && !backend(k).Ok? && k < cfg.maxRetries - 1 {
      LlmSchedule(cfg, backend, k + 1);
      var t := LlmFrom(cfg, backend, k + 1);
      var s := [Backoff(cfg, k)] + t.slept;
      assert forall j :: 1 <= j < |s| ==> s[j] == t.slept[j - 1];
    }
  }

  /** The backend is consulted at most maxRetries times; the delays slept are
    * RETRY_DELAY * 2^0, RETRY_DELAY * 2^1, ..., one fewer than the calls made. */
  lemma RetryBound(cfg: Config, backend: nat -> Outcome)
    ensures var t := LlmFrom(cfg, backend, 0);
      && t.attempts <= cfg.maxRetries
      && (cfg.maxRetries >= 1 ==> t.attempts >= 1)
      && (t.attempts >= 1 ==> t.slept == Backoffs(cfg, t.attempts - 1))
  {
    LlmSchedule(cfg, backend, 0);
  }

  /** The first parsed object ends the loop: its record is returned after
    * n + 1 calls and n sleeps. */
  lemma {:induction false} LlmSucceedsAt(cfg: Config, backend: nat -> Outcome, k: nat, n: nat)
    requires k <= n < cfg.maxRetries
    requires forall j :: k <= j < n ==> !backend(j).Ok?
    requires backend(n).Ok?
    ensures LlmFrom(cfg, backend, k) == Trace(FromFields(backend(n).fields), n - k + 1, BackoffsFrom(cfg, k, n - k))
    decreases n - k
  {
    if k < n {
      LlmSucceedsAt(cfg, backend, k + 1, n);
      LlmFailStep(cfg, backend, k);
      assert BackoffsFrom(cfg, k, n - k) == [Backoff(cfg, k)] + BackoffsFrom(cfg, k + 1, n - k - 1);
    } else {
      assert BackoffsFrom(cfg, k, 0) == [];
    }
  }

  /** A failure before the last attempt: one backoff, then the attempts that follow. */
  lemma LlmFailStep(cfg: Config, backend: nat -> Outcome, k: nat)
    requires k < cfg.maxRetries - 1 && !backend(k).Ok?
    ensures var t := LlmFrom(cfg, backend, k + 1);
      LlmFrom(cfg, backend, k) == Trace(t.record, t.attempts + 1, [Backoff(cfg, k)] + t.slept)
  {
  }

  /** Success on attempt n (0-based) after n failures: the record is read from the
    * parsed object, with n + 1 calls made and the first n backoffs slept. */
  lemma FirstSuccessWins(cfg: Config, backend: nat -> Outcome, n: nat)
    requires n < cfg.maxRetries
    requires forall j :: 0 <= j < n ==> !backend(j).Ok?
    requires backend(n).Ok?
    ensures LlmFrom(cfg, backend, 0) == Trace(FromFields(backend(n).fields), n + 1, Backoffs(cfg, n))
  {
    LlmSucceedsAt(cfg, backend, 0, n);
  }

  lemma {:induction false} LlmExhaustedFrom(cfg: Config, backend: nat -> Outcome, k: nat)
    requires k < cfg.maxRetries
    requires forall j :: k <= j < cfg.maxRetries ==> !backend(j).Ok?
    ensures LlmFrom(cfg, backend, k) ==
      Trace(ErrorRecord(FailureLabel(backend(cfg.maxRetries - 1))), cfg.maxRetries - k,
            BackoffsFrom(cfg, k, cfg.maxRetries - 1 - k))
    decreases cfg.maxRetries - k
  {
    if k < cfg.maxRetries - 1 {
      LlmExhaustedFrom(cfg, backend, k + 1);
      LlmFailStep(cfg, backend, k);
      assert BackoffsFrom(cfg, k, cfg.maxRetries - 1 - k) ==
        [Backoff(cfg, k)] + BackoffsFrom(cfg, k + 1, cfg.maxRetries - 1 - (k + 1));
    }
  }

  /** When every attempt fails, the sentinel record names the kind of the last
    * failure, all maxRetries calls are made and the backoffs between them slept. */
  lemma AllAttemptsFail(cfg: Config, backend: nat -> Outcome)
    requires cfg.maxRetries >= 1
    requires forall j :: 0 <= j < cfg.maxRetries ==> !backend(j).Ok?
    ensures LlmFrom(cfg, backend, 0) ==
      Trace(ErrorRecord(FailureLabel(backend(cfg.maxRetries - 1))), cfg.maxRetries, Backoffs(cfg, cfg.maxRetries - 1))
  {
    LlmExhaustedFrom(cfg, backend, 0);
  }

  /** The sentinel record: Sentiment is 'Error', Others names the failure, every
    * other category is empty. */
  lemma ErrorRecordContents(reason: string)
    ensures WellShaped(ErrorRecord(reason))
    ensures ErrorRecord(reason)["Sentiment"] == "Error" && ErrorRecord(reason)["Others"] == reason
    ensures forall c :: c in CategorySet && c != "Sentiment" && c != "Others" ==> ErrorRecord(reason)[c] == ""
  {
    FixedRecordsWellShaped(reason);
  }

  /** Only the attempts actually made matter: two backends that agree on them
    * give the same trace. */
  lemma {:induction false} LlmConsultsOnlyAttempted(cfg: Config, b1: nat -> Outcome, b2: nat -> Outcome, k: nat)
    requires forall j :: k <= j < k + LlmFrom(cfg, b1, k).attempts ==> b1(j) == b2(j)
    ensures LlmFrom(cfg, b1, k) == LlmFrom(cfg, b2, k)
    decreases cfg.maxRetries - k
  {
    if k < cfg.maxRetries {
      assert b1(k) == b2(k);
      if !b1(k).Ok? && k < cfg.maxRetries - 1 {
        LlmConsultsOnlyAttempted(cfg, b1, b2, k + 1);
      }
    }
  }

  /** With a retry budget of zero the loop body never runs and the defensive
    * fallback returns EMPTY_RESULT without consulting the backend. */
  lemma ZeroBudgetFallback(cfg: Config, backend: nat -> Outcome)
    requires cfg.maxRetries == 0
    ensures LlmFrom(cfg, backend, 0) == Trace(EmptyResult, 0, [])
  {
  }

  // ---------------------------------------------------------------------------
  // Strip and the record read from a parsed object

  lemma {:induction false} StripLeftFront(s: string)
    ensures StripLeft(s) == [] || !IsSpace(StripLeft(s)[0])
    ensures |StripLeft(s)| <= |s| && StripLeft(s) == s[|s| - |StripLeft(s)|..]
  {
    if s != [] && IsSpace(s[0]) {
      StripLeftFront(s[1..]);
    }
  }

  lemma {:induction false} StripRightKeepsFront(t: string)
    requires t == [] || !IsSpace(t[0])
    ensures StripRight(t) == [] || (!IsSpace(StripRight(t)[0]) && !IsSpace(StripRight(t)[|StripRight(t)| - 1]))
    ensures |StripRight(t)| <= |t| && StripRight(t) == t[..|StripRight(t)|]
  {
    if t != [] && IsSpace(t[|t| - 1]) {
      StripRightKeepsFront(t[..|t| - 1]);
    }
  }

  /** strip() of a string with no whitespace at either end is the identity. */
  lemma StripTrimmed(s: string)
    requires s == [] || (!IsSpace(s[0]) && !IsSpace(s[|s| - 1]))
    ensures Strip(s) == s
  {
  }

  /** strip() is idempotent. */
  lemma StripIdempotent(s: string)
    ensures Strip(Strip(s)) == Strip(s)
  {
    StripLeftFront(s);
    StripRightKeepsFront(StripLeft(s));
    StripTrimmed(Strip(s));
  }

  /** The record built from a parsed object has the category keys; each value is
    * trimmed, equal to the trimmed field, and '' where the key is missing. */
  lemma FromFieldsContents(fields: map<string, string>)
    ensures WellShaped(FromFields(fields))
    ensures forall c :: c in CategorySet ==> Strip(FromFields(fields)[c]) == FromFields(fields)[c]
    ensures forall c :: c in CategorySet && c !in fields ==> FromFields(fields)[c] == ""
    ensures forall c :: c in CategorySet && c in fields ==> FromFields(fields)[c] == Strip(fields[c])
  {
    forall c | c in CategorySet
      ensures Strip(FromFields(fields)[c]) == FromFields(fields)[c]
    {
      StripIdempotent(Get(fields, c));
    }
  }

  // ---------------------------------------------------------------------------
  // The short cuts of classify_review

  /** Missing, blank, or cleaned-to-empty input gives EMPTY_RESULT without a call. */
  lemma BlankGivesEmptyResult(cfg: Config, u: Unicode, review: Option<string>, backend: nat -> Outcome)
    requires IsBlank(review) || CleanReviewText(u, review) == ""
    ensures Classification(cfg, u, review, backend) == Trace(EmptyResult, 0, [])
  {
  }

  /** A single positive keyword: Sentiment 'Positive', General/Praise
    * 'Positive Experience', everything else '', whatever the backend would say. */
  lemma PositiveKeyword(cfg: Config, u: Unicode, review: Option<string>, b1: nat -> Outcome, b2: nat -> Outcome)
    requires !IsBlank(review) && CleanReviewText(u, review) != ""
    requires |Split(u.lower(CleanReviewText(u, review)))| == 1
    requires Split(u.lower(CleanReviewText(u, review)))[0] in PositiveWords
    ensures Classification(cfg, u, review, b1) == Classification(cfg, u, review, b2)
    ensures var t := Classification(cfg, u, review, b1);
      && t.attempts == 0 && t.slept == [] && WellShaped(t.record)
      && t.record["Sentiment"] == "Positive" && t.record["General/Praise"] == "Positive Experience"
      && forall c :: c in CategorySet && c != "Sentiment" && c != "General/Praise" ==> t.record[c] == ""
  {
    FixedRecordsWellShaped("");
  }

  /** A single negative keyword: Sentiment 'Negative', everything else '' (no
    * General/Praise reason), whatever the backend would say. */
  lemma NegativeKeyword(cfg: Config, u: Unicode, review: Option<string>, b1: nat -> Outcome, b2: nat -> Outcome)
    requires !IsBlank(review) && CleanReviewText(u, review) != ""
    requires |Split(u.lower(CleanReviewText(u, review)))| == 1
    requires Split(u.lower(CleanReviewText(u, review)))[0] in NegativeWords
    ensures Classification(cfg, u, review, b1) == Classification(cfg, u, review, b2)
    ensures var t := Classification(cfg, u, review, b1);
      && t.attempts == 0 && t.slept == [] && WellShaped(t.record)
      && t.record["Sentiment"] == "Negative"
      && forall c :: c in CategorySet && c != "Sentiment" ==> t.record[c] == ""
  {
    FixedRecordsWellShaped("");
    VocabulariesDisjoint(Split(u.lower(CleanReviewText(u, review)))[0]);
  }

  /** No word is in both vocabularies, so the order of the two tests does not matter. */
  lemma VocabulariesDisjoint(w: string)
    requires w in NegativeWords
    ensures w !in PositiveWords
  {
    var i :| 0 <= i < |NegativeWords| && NegativeWords[i] == w;
    forall j | 0 <= j < |PositiveWords| ensures PositiveWords[j] != w {
      assert PositiveWords[j][0] != w[0] || PositiveWords[j][1] != w[1] || PositiveWords[j][2] != w[2];
    }
  }



  /** Any other non-empty review goes to the retry loop. */
  lemma OtherReviewsUseBackend(cfg: Config, u: Unicode, review: Option<string>, backend: nat -> Outcome)
    requires !IsBlank(review) && CleanReviewText(u, review) != ""
    requires var ws := Split(u.lower(CleanReviewText(u, review)));
      |ws| != 1 || (ws[0] !in PositiveWords && ws[0] !in NegativeWords)
    ensures Classification(cfg, u, review, backend) == LlmFrom(cfg, backend, 0)
  {
  }

  // ---------------------------------------------------------------------------
  // Worked scenarios with the configured values

  /** Three JSON parse failures in a row: sleeps of 2 and 4 seconds, then the
    * 'JSON Parse Error' sentinel. */
  lemma ThreeParseFailures(backend: nat -> Outcome)
    requires backend(0) == ParseError && backend(1) == ParseError && backend(2) == ParseError
    ensures LlmFrom(Default, backend, 0) == Trace(ErrorRecord("JSON Parse Error"), 3, [2, 4])
  {
    AllAttemptsFail(Default, backend);
    assert Backoffs(Default, 2) == [2, 4];
  }

  /** A parse failure, then an object holding only Sentiment: one retry after 2
    * seconds, Sentiment 'Neutral' and every other category ''. */
  lemma SuccessOnSecondAttempt(backend: nat -> Outcome)
    requires backend(0) == ParseError && backend(1) == Ok(map["Sentiment" := "Neutral"])
    ensures var t := LlmFrom(Default, backend, 0);
      && t.attempts == 2 && t.slept == [2]
      && t.record["Sentiment"] == "Neutral"
      && forall c :: c in CategorySet && c != "Sentiment" ==> t.record[c] == ""
  {
    FirstSuccessWins(Default, backend, 1);
    FromFieldsContents(map["Sentiment" := "Neutral"]);
    assert Backoffs(Default, 1) == [2];
    assert Strip("Neutral") == "Neutral" by {
      StripTrimmed("Neutral");
    }
  }
}
