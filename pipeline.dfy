/** One full run of the clinical documentation pipeline: speech recognition, SOAP-note
    generation, ontology standardization and supervisor review, each followed by an
    audited state transition, an optional manual override that forces human review,
    and a final transition. The speech model's segments and detected language, the
    language model's behaviour, the ontology and the clock are inputs. */
module Pipeline {
  import opened Basics
  import opened Values
  import opened StateMachine
  import opened Supervisor
  import opened Standardizer
  import opened Asr
  import opened GroqLlm

  /** The settings the run reads. */
  datatype Settings = Settings(asrModelSize: string, groqModel: string)

  /** The pipeline's agents: the configured models, the loaded ontology and a supervisor
      whose minimum note length is 150. */
  datatype ClinicalDocPipeline = ClinicalDocPipeline(settings: Settings, ontology: Ontology, supAgent: SupervisorAgent)

  function NewPipeline(settings: Settings, ontology: Ontology): (p: ClinicalDocPipeline)
    ensures p.supAgent == SupervisorAgent(150, 4000, true)
    ensures p.settings == settings && p.ontology == ontology
  {
    ClinicalDocPipeline(settings, ontology, NewSupervisorAgent(minLength := 150))
  }

  /** The supervisor's verdict as a mutable record: the override rewrites it in place. */
  class Decision {
    var action: Action
    const reasons: Dict
    const finalNote: string

    constructor (action: Action, reasons: Dict, finalNote: string)
      ensures this.action == action && this.reasons == reasons && this.finalNote == finalNote
    {
      this.action := action;
      this.reasons := reasons;
      this.finalNote := finalNote;
    }
  }

  /** The run's metadata. */
  datatype Meta = Meta(stage: string, asrModel: string, llmModel: string, finalDecision: string,
                       stateLog: seq<LogEvent>)

  datatype PipelineOutput = PipelineOutput(asr: AsrResult, soapNote: string, std: StandardizationResult,
                                           sup: Decision, meta: Meta)

  const OverrideReason := "Force Human Review enabled by user"

  /** `{k: len(v) for k, v in std.entities.items()}`. */
  function EntityCounts(entities: map<string, seq<Entity>>): (counts: map<string, int>)
    ensures counts.Keys == entities.Keys
    ensures forall k :: k in counts ==> counts[k] == |entities[k]|
  {
    map k | k in entities :: |entities[k]|
  }

  /** The reasons after the manual override: two entries set, every other entry kept. */
  function OverrideReasons(reasons: map<string, Value>): (r: map<string, Value>)
    ensures r.Keys == reasons.Keys + {"manual_override", "override_reason"}
    ensures r["manual_override"] == Bool(true) && r["override_reason"] == Str(OverrideReason)
    ensures forall k :: k in reasons && k != "manual_override" && k != "override_reason" ==> r[k] == reasons[k]
  {
    reasons["manual_override" := Bool(true)]["override_reason" := Str(OverrideReason)]
  }

  /** The override's event, when the override is on. */
  function OverrideEvents(reasons: Dict, forceHumanReview: bool, clock: nat -> string): seq<LogEvent> {
    if forceHumanReview
    then [LogEvent(clock(4), "S_SUP", "S_SUP", "u_override",
                   map["decision" := Str(ActionName(HumanReview)), "reasons" := DictRef(reasons)])]
    else []
  }

  /** The events a successful run logs, given its stage results, the pre-override verdict,
      the verdict's reasons object and the clock reading of each transition. */
  function RunLog(settings: Settings, asr: AsrResult, std: StandardizationResult, verdict: Action,
                  reasons: Dict, forceHumanReview: bool, clock: nat -> string): seq<LogEvent>
  {
    GenerationEvents(settings, asr, clock)
    + [LogEvent(clock(2), "S_LLM", "S_STD", "u_std", map["entities" := Counts(EntityCounts(std.entities))])]
    + ReviewEvents(verdict, reasons, forceHumanReview, clock)
  }

  /** The events logged before standardization: transcription and note generation. */
  function GenerationEvents(settings: Settings, asr: AsrResult, clock: nat -> string): seq<LogEvent> {
    [ LogEvent(clock(0), Start, "S_ASR", "u_asr", map["segments" := Int(|asr.segments|)]),
      LogEvent(clock(1), "S_ASR", "S_LLM", "u_llm", map["llm_model" := Str(settings.groqModel)]) ]
  }

  /** The manual override: the verdict becomes human review, its reasons object gains the
      override entries in place, and an event re-entering the review state is logged. */
  method ApplyOverride(sup: Decision, sm: StateMachine, time: string)
    requires sm.Valid()
    modifies sup, sup.reasons, sm
    ensures sm.Valid()
    ensures sup.action == HumanReview
    ensures sup.reasons.entries == OverrideReasons(old(sup.reasons.entries))
    ensures sm.log == old(sm.log) + [LogEvent(time, old(sm.state), "S_SUP", "u_override",
                                              map["decision" := Str(ActionName(HumanReview)),
                                                  "reasons" := DictRef(sup.reasons)])]
    ensures sm.state == "S_SUP"
  {
    sup.action := HumanReview;
    sup.reasons.Put("manual_override", Bool(true));
    sup.reasons.Put("override_reason", Str(OverrideReason));
    sm.Transition(time, "S_SUP", "u_override",
                  Some(map["decision" := Str(ActionName(sup.action)), "reasons" := DictRef(sup.reasons)]));
  }

  /** The events of the review stage: the verdict, the optional override and the final transition. */
  function ReviewEvents(verdict: Action, reasons: Dict, forceHumanReview: bool, clock: nat -> string): seq<LogEvent> {
    var finalAction := if forceHumanReview then HumanReview else verdict;
    [LogEvent(clock(3), "S_STD", "S_SUP", "u_sup",
              map["decision" := Str(ActionName(verdict)), "reasons" := DictRef(reasons)])]
    + OverrideEvents(reasons, forceHumanReview, clock)
    + [LogEvent(clock(if forceHumanReview then 5 else 4), "S_SUP", "S_final", "u_finalize",
                map["final" := Str(ActionName(finalAction))])]
  }

  /** The review stage of `run_full`, after standardization: the verdict becomes a mutable
      record and is logged, the override is applied when asked for, and the run is finalized. */
  method Review(sm: StateMachine, d: SupervisorDecision, forceHumanReview: bool, clock: nat -> string)
    returns (sup: Decision)
    requires sm.Valid() && sm.state == "S_STD"
    modifies sm
    ensures sm.Valid() && sm.state == "S_final"
    ensures fresh(sup) && fresh(sup.reasons)
    ensures sup.action == (if forceHumanReview then HumanReview else d.action)
    ensures sup.reasons.entries == (if forceHumanReview then OverrideReasons(d.reasons) else d.reasons)
    ensures sup.finalNote == d.finalNote
    ensures sm.log == old(sm.log) + ReviewEvents(d.action, sup.reasons, forceHumanReview, clock)
  {
    var reasons := new Dict(d.reasons);
    sup := new Decision(d.action, reasons, d.finalNote);
    ghost var e3 := LogEvent(clock(3), "S_STD", "S_SUP", "u_sup",
                             map["decision" := Str(ActionName(d.action)), "reasons" := DictRef(reasons)]);
    sm.Transition(clock(3), "S_SUP", "u_sup",
                  Some(map["decision" := Str(ActionName(sup.action)), "reasons" := DictRef(sup.reasons)]));
    assert sm.log == old(sm.log) + [e3];

    var n := 4;
    if forceHumanReview {
      ApplyOverride(sup, sm, clock(4));
      n := 5;
    }
    ghost var overrideEvents := OverrideEvents(reasons, forceHumanReview, clock);
    assert sm.log == old(sm.log) + [e3] + overrideEvents;
    ghost var e5 := LogEvent(clock(n), "S_SUP", "S_final", "u_finalize", map["final" := Str(ActionName(sup.action))]);
    sm.Transition(clock(n), "S_final", "u_finalize", Some(map["final" := Str(ActionName(sup.action))]));
    assert sm.log == old(sm.log) + [e3] + overrideEvents + [e5];
  }

  /** The stages of `run_full` after a note was generated: standardization, review,
      and the output with its metadata. */
  method Document(p: ClinicalDocPipeline, sm: StateMachine, asr: AsrResult, soap: string,
                  forceHumanReview: bool, clock: nat -> string)
    returns (out: PipelineOutput)
    requires sm.Valid() && sm.state == "S_LLM" && sm.log == GenerationEvents(p.settings, asr, clock)
    modifies sm
    ensures var d := Decide(p.supAgent, asr.text, soap);
            var std := Standardize(p.ontology, asr.text, soap);
            && out.asr == asr && out.soapNote == soap && out.std == std
            && fresh(out.sup) && fresh(out.sup.reasons)
            && out.sup.action == (if forceHumanReview then HumanReview else d.action)
            && out.sup.reasons.entries == (if forceHumanReview then OverrideReasons(d.reasons) else d.reasons)
            && out.sup.finalNote == soap
            && out.meta == Meta("DONE", p.settings.asrModelSize, p.settings.groqModel,
                                ActionName(out.sup.action),
                                RunLog(p.settings, asr, std, d.action, out.sup.reasons, forceHumanReview, clock))
  {
    var std := Standardize(p.ontology, asr.text, soap);
    ghost var e2 := LogEvent(clock(2), "S_LLM", "S_STD", "u_std", map["entities" := Counts(EntityCounts(std.entities))]);
    sm.Transition(clock(2), "S_STD", "u_std", Some(map["entities" := Counts(EntityCounts(std.entities))]));
    assert sm.log == GenerationEvents(p.settings, asr, clock) + [e2];

    var d := Decide(p.supAgent, asr.text, soap);
    var sup := Review(sm, d, forceHumanReview, clock);
    assert sm.log == RunLog(p.settings, asr, std, d.action, sup.reasons, forceHumanReview, clock);

    var meta := Meta("DONE", p.settings.asrModelSize, p.settings.groqModel, ActionName(sup.action), sm.log);
    return PipelineOutput(asr, soap, std, sup, meta);
  }

  /** `run_full`. The generator's error, if any, ends the run. */
  method RunFull(p: ClinicalDocPipeline, segments: seq<WhisperSegment>, detectedLanguage: Option<string>,
                 call: (string, string) -> CallOutcome, forceHumanReview: bool, clock: nat -> string)
    returns (r: Result<PipelineOutput, ApiError>)
    ensures var asr := TranscriptOf(segments, detectedLanguage);
            var generated := TryModels(ModelsToTry(p.settings.groqModel), asr.text, call, None);
            (generated.Failure? ==> r == Failure(generated.error))
            && (generated.Success? ==>
                  var soap := generated.value;
                  var d := Decide(p.supAgent, asr.text, soap);
                  var std := Standardize(p.ontology, asr.text, soap);
                  && r.Success?
                  && r.value.asr == asr && r.value.soapNote == soap && r.value.std == std
                  && fresh(r.value.sup) && fresh(r.value.sup.reasons)
                  && r.value.sup.action == (if forceHumanReview then HumanReview else d.action)
                  && r.value.sup.reasons.entries == (if forceHumanReview then OverrideReasons(d.reasons) else d.reasons)
                  && r.value.sup.finalNote == soap
                  && r.value.meta == Meta("DONE", p.settings.asrModelSize, p.settings.groqModel,
                                          ActionName(r.value.sup.action),
                                          RunLog(p.settings, asr, std, d.action, r.value.sup.reasons,
                                                 forceHumanReview, clock)))
  {
    var sm := new StateMachine();

    var asr := Transcribe(segments, detectedLanguage);
    ghost var e0 := LogEvent(clock(0), Start, "S_ASR", "u_asr", map["segments" := Int(|asr.segments|)]);
    sm.Transition(clock(0), "S_ASR", "u_asr", Some(map["segments" := Int(|asr.segments|)]));
    assert sm.log == [e0];

    var generated, _ := GenerateSoap(p.settings.groqModel, asr.text, call);
    if generated.Failure? {
      return Failure(generated.error);
    }
    var soap := generated.value;
    sm.Transition(clock(1), "S_LLM", "u_llm", Some(map["llm_model" := Str(p.settings.groqModel)]));
    assert sm.log == GenerationEvents(p.settings, asr, clock);

    var out := Document(p, sm, asr, soap, forceHumanReview, clock);
    return Success(out);
  }

  /** The states a log enters, in order. */
  function Targets(log: seq<LogEvent>): seq<string> {
    seq(|log|, i requires 0 <= i < |log| => log[i].toState)
  }

  /** The actions a log records, in order. */
  function Actions(log: seq<LogEvent>): seq<string> {
    seq(|log|, i requires 0 <= i < |log| => log[i].action)
  }

  /** A run logs five transitions, or six with the override, which re-enters the review
      state between the review and the final transition. */
  lemma RunLogShape(settings: Settings, asr: AsrResult, std: StandardizationResult, verdict: Action,
                    reasons: Dict, forceHumanReview: bool, clock: nat -> string)
    ensures var log := RunLog(settings, asr, std, verdict, reasons, forceHumanReview, clock);
            |log| == (if forceHumanReview then 6 else 5)
            && Targets(log) == ["S_ASR", "S_LLM", "S_STD", "S_SUP"]
                               + (if forceHumanReview then ["S_SUP"] else []) + ["S_final"]
            && Actions(log) == ["u_asr", "u_llm", "u_std", "u_sup"]
                               + (if forceHumanReview then ["u_override"] else []) + ["u_finalize"]
  {
    var log := RunLog(settings, asr, std, verdict, reasons, forceHumanReview, clock);
    var targets := ["S_ASR", "S_LLM", "S_STD", "S_SUP"] + (if forceHumanReview then ["S_SUP"] else []) + ["S_final"];
    var actions := ["u_asr", "u_llm", "u_std", "u_sup"] + (if forceHumanReview then ["u_override"] else []) + ["u_finalize"];
    assert forall i :: 0 <= i < |log| ==> Targets(log)[i] == targets[i] && Actions(log)[i] == actions[i];
  }

  /** The run's log is a well-chained audit trail from the start state that ends in `S_final`. */
  lemma RunLogChained(settings: Settings, asr: AsrResult, std: StandardizationResult, verdict: Action,
                      reasons: Dict, forceHumanReview: bool, clock: nat -> string)
    ensures Chained(RunLog(settings, asr, std, verdict, reasons, forceHumanReview, clock), "S_final")
  {
    var log := RunLog(settings, asr, std, verdict, reasons, forceHumanReview, clock);
    assert forall i :: 0 < i < |log| ==> log[i].fromState == log[i - 1].toState;
  }

  /** The final event records the returned action, and it is "HUMAN_REVIEW" under the
      override whatever the supervisor decided; the review event keeps the supervisor's
      own verdict, and the review and override events hold the same reasons object. */
  lemma RunLogDecisions(settings: Settings, asr: AsrResult, std: StandardizationResult, verdict: Action,
                        reasons: Dict, forceHumanReview: bool, clock: nat -> string)
    ensures var log := RunLog(settings, asr, std, verdict, reasons, forceHumanReview, clock);
            var finalAction := if forceHumanReview then HumanReview else verdict;
            |log| >= 5
            && log[|log| - 1].details == map["final" := Str(ActionName(finalAction))]
            && log[3].details["decision"] == Str(ActionName(verdict))
            && log[3].details["reasons"] == DictRef(reasons)
            && (forceHumanReview ==>
                  log[4].details["reasons"] == log[3].details["reasons"]
                  && log[4].details["decision"] == Str("HUMAN_REVIEW"))
  {
  }

  /** The first events record the segment count, the language model's name and the
      number of entities found per category. */
  lemma RunLogDetails(settings: Settings, asr: AsrResult, std: StandardizationResult, verdict: Action,
                      reasons: Dict, forceHumanReview: bool, clock: nat -> string)
    ensures var log := RunLog(settings, asr, std, verdict, reasons, forceHumanReview, clock);
            log[0].details["segments"] == Int(|asr.segments|)
            && log[1].details["llm_model"] == Str(settings.groqModel)
            && log[2].details["entities"].Counts?
            && log[2].details["entities"].counts.Keys == std.entities.Keys
            && forall c :: c in std.entities ==> log[2].details["entities"].counts[c] == |std.entities[c]|
  {
  }
}
