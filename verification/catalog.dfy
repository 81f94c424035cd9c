/** A few entries of the `ANALYSES` table (bundleparty.py), and what the
    matching rules make of them. */
module Catalog {
  import opened Seqs
  import opened Text
  import opened Terms
  import opened Evaluate

  /** Entry "1", "General Errors (fail, error, unable)". */
  const GeneralErrors: Analysis := Analysis(
    ["fail", "error", "unable"],
    "general_errors.txt",
    Literal,
    Some(["\"auth_error_code\":null", "\"error\": \"\"", "Postgres failed to look up setting",
          "TaskResultsErroredWorker", "Agent token invalid", "/agent/status status=401"]))

  /** Entry "4", "Connection Errors". */
  const ConnectionErrors: Analysis := Analysis(
    ["failed to connect to", "connection refused", "error acquiring connection"],
    "connection_errors.txt",
    Literal,
    None)

  /** Entry "9", "Webhook Issues". */
  const WebhookIssues: Analysis := Analysis(
    ["webhook", "webhooks", "WebhooksController"],
    "webhook_analysis.txt",
    Literal,
    None)

  /** In "Webhook Issues" the second and third terms contain the first one
      once lowercased, so no line is ever reported under them. */
  lemma WebhookLaterTermsNeverReported(engine: RegexEngine, line: string)
    ensures FirstHit(Prepare(WebhookIssues, engine).matcher, engine, line) != Some(1)
    ensures FirstHit(Prepare(WebhookIssues, engine).matcher, engine, line) != Some(2)
  {
    var t := WebhookIssues.terms;
    assert Lower(t[0]) == "webhook";
    assert Lower(t[1]) == "webhooks";
    assert Lower(t[2]) == "webhookscontroller";
    assert Contains("webhook", "webhooks") by {
      assert "webhooks"[0..7] == "webhook";
      assert OccursAt("webhook", "webhooks", 0);
    }
    assert Contains("webhook", "webhookscontroller") by {
      assert "webhookscontroller"[0..7] == "webhook";
      assert OccursAt("webhook", "webhookscontroller", 0);
    }
    LiteralShadowedTermNeverReported(WebhookIssues, engine, line, 0, 1);
    LiteralShadowedTermNeverReported(WebhookIssues, engine, line, 0, 2);
  }

  /** Literal matching ignores case: the term "fail" is reported for a line
      spelled "FAIL", "Fail" or "fail". */
  lemma FailMatchesAnyCase(engine: RegexEngine)
    ensures EvaluateLine(Prepare(GeneralErrors, engine).matcher, engine, "FAIL") == Some("fail")
    ensures EvaluateLine(Prepare(GeneralErrors, engine).matcher, engine, "Fail") == Some("fail")
    ensures EvaluateLine(Prepare(GeneralErrors, engine).matcher, engine, "fail") == Some("fail")
  {
    var m := Prepare(GeneralErrors, engine).matcher;
    assert Lower("fail") == "fail";
    assert Lower("FAIL") == "fail";
    assert Lower("Fail") == "fail";
    assert m.terms[0] == "fail";
    ContainsSelf("fail");
    assert FirstHit(m, engine, "fail") == Some(0);
    assert !Suppressed(m, "fail") by {
      forall k | 0 <= k < |m.ignoreTerms| ensures !Contains(m.ignoreTerms[k], "fail") {
        assert |m.ignoreTerms[k]| > 4;
      }
    }
    LiteralCaseInsensitive(m, engine, "FAIL", "fail");
    LiteralCaseInsensitive(m, engine, "Fail", "fail");
  }
}
