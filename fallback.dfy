/** The model fallback chain of the mention bots: the models are asked in list
    order, the first non-empty answer wins, and a failure moves on to the next
    model while remembering its error. When no model answers, the text of the
    last error decides the reply. */
module Fallback {
  import opened Wrappers
  import opened Text

  /** What one `generate_content` call gives: the response text ("" when the
      response carries none) or the text of the exception it raised. */
  datatype Outcome = Answer(text: string) | Raised(error: string)

  /** `reply_content`, `used_model` and `last_error` after the loop. */
  datatype Attempt = Attempt(reply: Option<string>, used: Option<string>, lastError: Option<string>)

  predicate Answers(o: Outcome)
  {
    o.Answer? && |o.text| > 0
  }

  /** The loop from model `k` on, with the error remembered so far. */
  function Run<P>(models: seq<string>, prompt: P, ask: (string, P) -> Outcome, k: nat, err: Option<string>): Attempt
    requires k <= |models|
    decreases |models| - k
  {
    if k == |models| then Attempt(None, None, err)
    else
      var o := ask(models[k], prompt);
      if Answers(o) then Attempt(Some(o.text), Some(models[k]), err)
      else if o.Raised? then Run(models, prompt, ask, k + 1, Some(o.error))
      else Run(models, prompt, ask, k + 1, err)
  }

  /** The model loop: `break` on the first non-empty text, `continue` after an
      exception, with `last_error` updated. */
  method TryModels<P>(models: seq<string>, prompt: P, ask: (string, P) -> Outcome) returns (a: Attempt)
    ensures a == Run(models, prompt, ask, 0, None)
  {
    var lastError: Option<string> := None;
    var k := 0;
    while k < |models|
      invariant k <= |models|
      invariant Run(models, prompt, ask, 0, None) == Run(models, prompt, ask, k, lastError)
    {
      var o := ask(models[k], prompt);
      if Answers(o) {
        return Attempt(Some(o.text), Some(models[k]), lastError);
      }
      if o.Raised? {
        lastError := Some(o.error);
      }
      k := k + 1;
    }
    return Attempt(None, None, lastError);
  }

  /** The outcomes the models would give, in list order. */
  function Outcomes<P>(models: seq<string>, prompt: P, ask: (string, P) -> Outcome): (r: seq<Outcome>)
    ensures |r| == |models| && forall i :: 0 <= i < |models| ==> r[i] == ask(models[i], prompt)
  {
    seq(|models|, i requires 0 <= i < |models| => ask(models[i], prompt))
  }

  /** The error of the last raising outcome, or `err` when none raised. */
  function LastRaised(os: seq<Outcome>, err: Option<string>): (r: Option<string>)
    ensures r.Some? && r != err ==>
      exists i :: 0 <= i < |os| && os[i] == Raised(r.value) && (forall j :: i < j < |os| ==> !os[j].Raised?)
    ensures (forall j :: 0 <= j < |os| ==> !os[j].Raised?) ==> r == err
    ensures |os| > 0 && os[|os| - 1].Raised? ==> r == Some(os[|os| - 1].error)
  {
    if |os| == 0 then err
    else if os[|os| - 1].Raised? then Some(os[|os| - 1].error)
    else LastRaised(os[..|os| - 1], err)
  }

  lemma {:induction false} LastRaisedFront(o: Outcome, rest: seq<Outcome>, err: Option<string>)
    ensures LastRaised([o] + rest, err) == LastRaised(rest, if o.Raised? then Some(o.error) else err)
    decreases |rest|
  {
    if |rest| > 0 && !rest[|rest| - 1].Raised? {
      assert ([o] + rest)[..|rest|] == [o] + rest[..|rest| - 1];
      LastRaisedFront(o, rest[..|rest| - 1], err);
    } else if |rest| == 0 {
      assert ([o] + rest)[..0] == [];
    }
  }

  /** Up to a model that answers, the loop only folds the raised errors. */
  lemma {:induction false} RunUntil<P>(models: seq<string>, prompt: P, ask: (string, P) -> Outcome,
                                       k: nat, err: Option<string>, i: nat)
    requires k <= i <= |models|
    requires forall j :: k <= j < i ==> !Answers(ask(models[j], prompt))
    ensures Run(models, prompt, ask, k, err)
         == Run(models, prompt, ask, i, LastRaised(Outcomes(models, prompt, ask)[k..i], err))
    decreases i - k
  {
    var os := Outcomes(models, prompt, ask);
    if k == i {
      assert os[k..i] == [];
    } else {
      var o := os[k];
      var err' := if o.Raised? then Some(o.error) else err;
      RunUntil(models, prompt, ask, k + 1, err', i);
      assert os[k..i] == [o] + os[k + 1..i];
      LastRaisedFront(o, os[k + 1..i], err);
    }
  }

  /** The chain in terms of the first model that answers: its text and name win,
      and the remembered error is the last one raised before it; when no model
      answers, the error is the last one raised at all (None if none raised). */
  lemma FirstAnswerWins<P>(models: seq<string>, prompt: P, ask: (string, P) -> Outcome)
    ensures var os := Outcomes(models, prompt, ask);
      var a := Run(models, prompt, ask, 0, None);
      (a.reply.Some? <==> exists i :: 0 <= i < |os| && Answers(os[i]))
      && ((forall i :: 0 <= i < |os| ==> !Answers(os[i])) ==> a == Attempt(None, None, LastRaised(os, None)))
      && forall i :: 0 <= i < |os| && Answers(os[i]) && (forall j :: 0 <= j < i ==> !Answers(os[j])) ==>
        a == Attempt(Some(os[i].text), Some(models[i]), LastRaised(os[..i], None))
  {
    var os := Outcomes(models, prompt, ask);
    if exists i :: 0 <= i < |os| && Answers(os[i]) {
      var f := FirstIndex(os);
      RunUntil(models, prompt, ask, 0, None, f);
      assert os[0..f] == os[..f];
      assert Run(models, prompt, ask, 0, None) == Attempt(Some(os[f].text), Some(models[f]), LastRaised(os[..f], None));
      assert forall i :: 0 <= i < |os| && Answers(os[i]) && (forall j :: 0 <= j < i ==> !Answers(os[j])) ==> i == f;
    } else {
      RunUntil(models, prompt, ask, 0, None, |models|);
      assert os[0..|models|] == os;
    }
  }

  function FirstIndex(os: seq<Outcome>): (i: nat)
    requires exists i :: 0 <= i < |os| && Answers(os[i])
    ensures i < |os| && Answers(os[i]) && forall j :: 0 <= j < i ==> !Answers(os[j])
  {
    if Answers(os[0]) then 0
    else
      assert exists i :: 0 <= i < |os[1..]| && Answers(os[1..][i]) by {
        var i :| 0 <= i < |os| && Answers(os[i]);
        assert os[1..][i - 1] == os[i];
      }
      1 + FirstIndex(os[1..])
  }

  // ---------------------------------------------------------------------------
  // Error classification

  function ErrorBlock(e: string): string
  {
    "# ⚠️ 模型發生錯誤\n```json\n" + e + "\n```"
  }

  const QuotaNote := "我的配額被你們問爆了啦🫠\n你們可以一分鐘後或是明天重試看看嗎🥺\n"
  const BusyNote := "我被你們問爆了啦🫠\n你們可能要重試一下🥺\n"
  const NoResponse := "🤖 模型未產生任何回應。"

  predicate IsQuota(e: string)
  {
    Contains(e, "429") || Contains(e, "Resource has been exhausted")
  }

  predicate IsBusy(e: string)
  {
    Contains(e, "503") || Contains(e, "Service Unavailable")
  }

  /** The reply when no model answered. */
  function Classify(lastError: Option<string>): string
  {
    match lastError
    case None => NoResponse
    case Some(e) =>
      if IsQuota(e) then QuotaNote + ErrorBlock(e)
      else if IsBusy(e) then BusyNote + ErrorBlock(e)
      else ErrorBlock(e)
  }

  /** The four cases are told apart by the reply alone: a quota error gets the
      quota note, a busy error (that is not a quota error) the busy note, any
      other error only the error block, and no error the no-response line. Every
      error reply ends with the error text in a code block. */
  lemma ClassifyCases(lastError: Option<string>)
    ensures lastError.None? <==> Classify(lastError) == NoResponse
    ensures lastError.Some? ==> EndsWith(Classify(lastError), ErrorBlock(lastError.value))
    ensures lastError.Some? ==>
      (StartsWith(Classify(lastError), QuotaNote) <==> IsQuota(lastError.value))
    ensures lastError.Some? ==>
      (StartsWith(Classify(lastError), BusyNote) <==> !IsQuota(lastError.value) && IsBusy(lastError.value))
  {
    if lastError.Some? {
      var e := lastError.value;
      var r := Classify(lastError);
      var b := ErrorBlock(e);
      assert r[|r| - |b|..] == b;
      assert b[0] == '#';
      assert QuotaNote[1] != BusyNote[1];
      if IsQuota(e) {
        assert r[1] == QuotaNote[1];
      } else if IsBusy(e) {
        assert r[1] == BusyNote[1];
      } else {
        assert r[0] == '#';
      }
    } else {
      assert NoResponse[0] == '🤖';
    }
  }
}
