/** The model-fallback loop of the SOAP-note generator: the configured model is
    tried first, then the fallback models in their listed order; the first
    completion wins, a bad-request error moves on to the next model, any other
    error propagates, and when every model is rejected the last rejection is raised.
    The remote chat-completion call is a parameter: the outcome of asking a model
    about a transcript. */
module GroqLlm {
  import opened Basics
  import opened Text

  const FallbackModels: seq<string> := ["llama-3.3-70b-versatile", "llama-3.1-8b-instant"]

  datatype ApiError = BadRequest(message: string) | OtherError(message: string)

  /** What one chat-completion call does: returns content or raises an error. */
  datatype CallOutcome = Completion(content: string) | Raised(err: ApiError)

  /** The outcomes the loop catches and moves past. */
  predicate Rejected(o: CallOutcome) {
    o.Raised? && o.err.BadRequest?
  }

  /** `[m for m in xs if m != x]`. */
  function Without(xs: seq<string>, x: string): (r: seq<string>)
    ensures |r| <= |xs|
    ensures forall y :: y in r <==> y in xs && y != x
  {
    if xs == [] then []
    else
      var last := xs[|xs| - 1];
      Without(xs[..|xs| - 1], x) + (if last != x then [last] else [])
  }

  /** The try order: the configured model, then the other fallbacks. */
  function ModelsToTry(model: string): (r: seq<string>)
    ensures r != [] && r[0] == model
    ensures forall m :: m in r <==> m == model || m in FallbackModels
    ensures forall i :: 1 <= i < |r| ==> r[i] != model
  {
    var rest := Without(FallbackModels, model);
    assert forall i :: 0 <= i < |rest| ==> rest[i] in rest;
    assert forall m :: m in [model] + rest <==> m == model || m in rest;
    [model] + rest
  }

  /** A configured model outside the fallback list is tried before both fallbacks, in order. */
  lemma ModelsToTryUnlisted(model: string)
    requires model !in FallbackModels
    ensures ModelsToTry(model) == [model] + FallbackModels
  {
    var xs := FallbackModels;
    assert xs[0] in xs && xs[1] in xs;
    assert xs[..1][..0] == [] && xs[..2][..1] == xs[..1] && xs[..2] == xs;
    assert Without(xs[..1], model) == [xs[0]];
  }

  /** A configured model that is the first fallback keeps the listed order and is not tried twice. */
  lemma ModelsToTryFirstFallback()
    ensures ModelsToTry(FallbackModels[0]) == FallbackModels
  {
    var xs := FallbackModels;
    assert |xs[0]| != |xs[1]|;
    assert xs[..1][..0] == [] && xs[..2][..1] == xs[..1] && xs[..2] == xs;
  }

  /** A configured model that is the second fallback is tried before the first one. */
  lemma ModelsToTrySecondFallback()
    ensures ModelsToTry(FallbackModels[1]) == [FallbackModels[1], FallbackModels[0]]
  {
    var xs := FallbackModels;
    assert |xs[0]| != |xs[1]|;
    assert xs[..1][..0] == [] && xs[..2][..1] == xs[..1] && xs[..2] == xs;
  }

  /** The loop's result for the models still to try, given the last caught error. */
  function TryModels(models: seq<string>, transcript: string, call: (string, string) -> CallOutcome,
                     lastErr: Option<ApiError>): (r: Result<string, ApiError>)
    requires models != [] || lastErr.Some?
    ensures r.Success? ==> exists m :: m in models && call(m, transcript).Completion?
    ensures r.Failure? && lastErr.None? ==> exists m :: m in models && call(m, transcript).Raised?
  {
    if models == [] then Failure(lastErr.value)
    else
      match call(models[0], transcript)
      case Completion(content) => Success(Strip(content))
      case Raised(e) =>
        if e.BadRequest? then TryModels(models[1..], transcript, call, Some(e)) else Failure(e)
  }

  /** The models the loop actually calls, in order. */
  function Called(models: seq<string>, transcript: string, call: (string, string) -> CallOutcome): seq<string> {
    if models == [] then []
    else if Rejected(call(models[0], transcript)) then [models[0]] + Called(models[1..], transcript, call)
    else [models[0]]
  }

  /** One round of the loop on the models from position `i` on. */
  lemma TryModelsStep(models: seq<string>, i: nat, transcript: string, call: (string, string) -> CallOutcome,
                      lastErr: Option<ApiError>)
    requires i < |models|
    ensures var o := call(models[i], transcript);
            TryModels(models[i..], transcript, call, lastErr)
            == (if o.Completion? then Success(Strip(o.content))
                else if o.err.BadRequest? then TryModels(models[i + 1..], transcript, call, Some(o.err))
                else Failure(o.err))
    ensures Called(models[i..], transcript, call)
            == (if Rejected(call(models[i], transcript)) then [models[i]] + Called(models[i + 1..], transcript, call)
                else [models[i]])
  {
    assert models[i..][0] == models[i] && models[i..][1..] == models[i + 1..];
  }

  /** `generate_soap`: the fallback loop over the try order. */
  method GenerateSoap(model: string, transcript: string, call: (string, string) -> CallOutcome)
    returns (r: Result<string, ApiError>, ghost called: seq<string>)
    ensures r == TryModels(ModelsToTry(model), transcript, call, None)
    ensures called == Called(ModelsToTry(model), transcript, call)
  {
    var models := ModelsToTry(model);
    var lastErr: Option<ApiError> := None;
    called := [];
    var i := 0;
    while i < |models|
      invariant 0 <= i <= |models|
      invariant i > 0 ==> lastErr.Some?
      invariant models[i..] != [] || lastErr.Some?
      invariant TryModels(models[i..], transcript, call, lastErr) == TryModels(models, transcript, call, None)
      invariant called + Called(models[i..], transcript, call) == Called(models, transcript, call)
    {
      TryModelsStep(models, i, transcript, call, lastErr);
      called := called + [models[i]];
      var outcome := call(models[i], transcript);
      match outcome {
        case Completion(content) =>
          return Success(Strip(content)), called;
        case Raised(e) =>
          if e.BadRequest? {
            lastErr := Some(e);
          } else {
            return Failure(e), called;
          }
      }
      i := i + 1;
    }
    assert models[i..] == [];
    return Failure(lastErr.value), called;
  }

  /** The first model that is not rejected decides the result: its content stripped, or
      its error; it is the last model called, and every model before it was called. */
  lemma {:induction false} FirstUnrejectedDecides(models: seq<string>, transcript: string,
                                                  call: (string, string) -> CallOutcome,
                                                  lastErr: Option<ApiError>, k: nat)
    requires k < |models|
    requires forall j :: 0 <= j < k ==> Rejected(call(models[j], transcript))
    requires !Rejected(call(models[k], transcript))
    ensures TryModels(models, transcript, call, lastErr)
            == match call(models[k], transcript)
               case Completion(content) => Success(Strip(content))
               case Raised(e) => Failure(e)
    ensures Called(models, transcript, call) == models[..k + 1]
  {
    if k > 0 {
      assert Rejected(call(models[0], transcript));
      forall j | 0 <= j < k - 1 ensures Rejected(call(models[1..][j], transcript)) {
        assert models[1..][j] == models[j + 1];
      }
      FirstUnrejectedDecides(models[1..], transcript, call, Some(call(models[0], transcript).err), k - 1);
      assert models[..k + 1] == [models[0]] + models[1..][..k];
    }
  }

  /** When every model is rejected, all are called and the last rejection is raised. */
  lemma {:induction false} AllRejectedRaisesLast(models: seq<string>, transcript: string,
                                                 call: (string, string) -> CallOutcome,
                                                 lastErr: Option<ApiError>)
    requires models != []
    requires forall j :: 0 <= j < |models| ==> Rejected(call(models[j], transcript))
    ensures var last := call(models[|models| - 1], transcript);
            last.Raised? && TryModels(models, transcript, call, lastErr) == Failure(last.err)
    ensures Called(models, transcript, call) == models
  {
    assert Rejected(call(models[0], transcript));
    if |models| > 1 {
      forall j | 0 <= j < |models| - 1 ensures Rejected(call(models[1..][j], transcript)) {
        assert models[1..][j] == models[j + 1];
      }
      AllRejectedRaisesLast(models[1..], transcript, call, Some(call(models[0], transcript).err));
      assert models == [models[0]] + models[1..];
    }
  }

  /** A completion from the configured model is returned stripped, and nothing else is called. */
  lemma GenerateFirstModelWins(model: string, transcript: string, call: (string, string) -> CallOutcome)
    requires call(model, transcript).Completion?
    ensures TryModels(ModelsToTry(model), transcript, call, None)
            == Success(Strip(call(model, transcript).content))
    ensures Called(ModelsToTry(model), transcript, call) == [model]
  {
    FirstUnrejectedDecides(ModelsToTry(model), transcript, call, None, 0);
  }

  /** When every model in the try order is rejected, the generator fails with the
      rejection of the last model tried, after trying all of them. */
  lemma GenerateAllRejected(model: string, transcript: string, call: (string, string) -> CallOutcome)
    requires forall m :: m in ModelsToTry(model) ==> Rejected(call(m, transcript))
    ensures var models := ModelsToTry(model); var last := call(models[|models| - 1], transcript);
            last.Raised? && TryModels(models, transcript, call, None) == Failure(last.err)
            && Called(models, transcript, call) == models
  {
    var models := ModelsToTry(model);
    forall j | 0 <= j < |models| ensures Rejected(call(models[j], transcript)) {
      assert models[j] in models;
    }
    AllRejectedRaisesLast(models, transcript, call, None);
  }

  /** An error other than a bad request from the configured model propagates at once. */
  lemma GenerateOtherErrorPropagates(model: string, transcript: string, call: (string, string) -> CallOutcome)
    requires call(model, transcript).Raised? && call(model, transcript).err.OtherError?
    ensures TryModels(ModelsToTry(model), transcript, call, None) == Failure(call(model, transcript).err)
    ensures Called(ModelsToTry(model), transcript, call) == [model]
  {
    FirstUnrejectedDecides(ModelsToTry(model), transcript, call, None, 0);
  }

  /** Every result is either a completion of some model in the try order, stripped,
      or an error that one of those models raised. */
  lemma {:induction false} TryModelsResultFromSomeModel(models: seq<string>, transcript: string,
                                                        call: (string, string) -> CallOutcome,
                                                        lastErr: Option<ApiError>)
    requires models != [] || lastErr.Some?
    ensures var r := TryModels(models, transcript, call, lastErr);
            (r.Success? ==> exists m :: m in models && call(m, transcript).Completion?
                                                    && r.value == Strip(call(m, transcript).content))
            && (r.Failure? ==> (lastErr.Some? && r.error == lastErr.value)
                               || exists m :: m in models && call(m, transcript) == Raised(r.error))
  {
    if models != [] {
      var o := call(models[0], transcript);
      if o.Raised? && o.err.BadRequest? {
        TryModelsResultFromSomeModel(models[1..], transcript, call, Some(o.err));
        var r := TryModels(models, transcript, call, lastErr);
        if r.Success? {
          var m :| m in models[1..] && call(m, transcript).Completion?
                   && r.value == Strip(call(m, transcript).content);
          assert m in models;
        } else if r.error != o.err {
          var m :| m in models[1..] && call(m, transcript) == Raised(r.error);
          assert m in models;
        }
      }
    }
  }
}
