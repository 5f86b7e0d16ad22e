/** The supervisor's review policy: a first-match rule chain over the SOAP note
    (too short, too long, missing sections, too much uncertainty, else approve). */
module Supervisor {
  import opened Text
  import opened Values

  datatype Action = Approve | Regenerate | HumanReview

  /** The action strings the source stores and logs. */
  function ActionName(a: Action): string {
    match a
    case Approve => "APPROVE"
    case Regenerate => "REGENERATE"
    case HumanReview => "HUMAN_REVIEW"
  }

  datatype SupervisorDecision = SupervisorDecision(action: Action, reasons: map<string, Value>, finalNote: string)

  datatype SupervisorAgent = SupervisorAgent(minLength: int, maxLength: int, requireSections: bool)

  /** The agent's constructor, with the source's default thresholds. */
  function NewSupervisorAgent(minLength: int := 200, maxLength: int := 4000, requireSections: bool := true): (a: SupervisorAgent)
    ensures a.minLength == minLength && a.maxLength == maxLength && a.requireSections == requireSections
  {
    SupervisorAgent(minLength, maxLength, requireSections)
  }

  /** Without arguments the agent accepts notes of 200 to 4000 characters and requires sections. */
  lemma DefaultThresholds()
    ensures NewSupervisorAgent() == SupervisorAgent(200, 4000, true)
  {
  }

  const RequiredSections: seq<string> := ["S:", "O:", "A:", "P:"]
  const SuspiciousMarkers: seq<string> := ["I assume", "maybe", "probably", "might be", "not sure"]

  const TooShort := "SOAP note too short"
  const TooLong := "SOAP note too long"
  const MissingSections := "Missing SOAP sections (S/O/A/P)"
  const TooUncertain := "Too many uncertainty markers"
  const Passed := "Passed basic checks"

  /** Every section marker occurs, case-sensitively, in the unstripped note. */
  predicate HasSections(note: string): (r: bool)
    ensures r <==> Contains(note, "S:") && Contains(note, "O:") && Contains(note, "A:") && Contains(note, "P:")
  {
    forall sec | sec in RequiredSections :: Contains(note, sec)
  }

  /** How many of `markers` occur at least once in `textLower`, compared lower-cased. */
  function CountPresent(markers: seq<string>, textLower: string): (n: nat)
    ensures n <= |markers|
  {
    if markers == [] then 0
    else
      CountPresent(markers[..|markers| - 1], textLower)
      + (if Contains(textLower, Lower(markers[|markers| - 1])) then 1 else 0)
  }

  function UncertaintyHits(note: string): nat {
    CountPresent(SuspiciousMarkers, Lower(note))
  }

  /** The count is the number of distinct marker positions present, not the
      number of occurrences, and so at most the number of markers. */
  lemma {:induction false} CountPresentIsDistinctMarkers(markers: seq<string>, textLower: string)
    ensures CountPresent(markers, textLower)
            == |set i | 0 <= i < |markers| && Contains(textLower, Lower(markers[i]))|
  {
    if markers != [] {
      var n := |markers| - 1;
      var p := markers[..n];
      CountPresentIsDistinctMarkers(p, textLower);
      var before := set i | 0 <= i < |p| && Contains(textLower, Lower(p[i]));
      var after := set i | 0 <= i < |markers| && Contains(textLower, Lower(markers[i]));
      if Contains(textLower, Lower(markers[n])) {
        assert after == before + {n};
      } else {
        assert after == before;
      }
    }
  }

  lemma UncertaintyHitsBounded(note: string)
    ensures UncertaintyHits(note) <= |SuspiciousMarkers| == 5
    ensures UncertaintyHits(note)
            == |set i | 0 <= i < 5 && Contains(Lower(note), Lower(SuspiciousMarkers[i]))|
  {
    CountPresentIsDistinctMarkers(SuspiciousMarkers, Lower(note));
  }

  /** `decide`: the transcript is accepted but never consulted. */
  function Decide(agent: SupervisorAgent, transcript: string, soapNote: string): (d: SupervisorDecision)
    ensures d.finalNote == soapNote
    ensures "length" in d.reasons && d.reasons["length"] == Int(|Strip(soapNote)|)
  {
    var n := |Strip(soapNote)|;
    var reasons := map["length" := Int(n)];
    if n < agent.minLength then
      SupervisorDecision(Regenerate, reasons["problem" := Str(TooShort)], soapNote)
    else if n > agent.maxLength then
      SupervisorDecision(Regenerate, reasons["problem" := Str(TooLong)], soapNote)
    else if agent.requireSections && !HasSections(soapNote) then
      SupervisorDecision(Regenerate, reasons["problem" := Str(MissingSections)], soapNote)
    else
      var hits := UncertaintyHits(soapNote);
      var reasons := reasons["uncertainty_markers" := Int(hits)];
      if hits >= 3 then
        SupervisorDecision(HumanReview, reasons["problem" := Str(TooUncertain)], soapNote)
      else
        SupervisorDecision(Approve, reasons["status" := Str(Passed)], soapNote)
  }

  /** The note passes the three structural rules, so the uncertainty rule is reached. */
  predicate PassesStructure(agent: SupervisorAgent, note: string) {
    var n := |Strip(note)|;
    agent.minLength <= n <= agent.maxLength && (!agent.requireSections || HasSections(note))
  }

  function Problem(d: SupervisorDecision): Value
    requires "problem" in d.reasons
  {
    d.reasons["problem"]
  }

  /** Rule 1: "too short" fires exactly when the stripped length is below the
      minimum (a length equal to the minimum passes). */
  lemma DecideTooShort(agent: SupervisorAgent, transcript: string, note: string)
    ensures var d := Decide(agent, transcript, note);
            ("problem" in d.reasons && Problem(d) == Str(TooShort)) <==> |Strip(note)| < agent.minLength
    ensures |Strip(note)| < agent.minLength ==> Decide(agent, transcript, note).action == Regenerate
  {
  }

  /** Rule 2: "too long" fires exactly when the note is not too short and is over the maximum. */
  lemma DecideTooLong(agent: SupervisorAgent, transcript: string, note: string)
    ensures var d := Decide(agent, transcript, note); var n := |Strip(note)|;
            ("problem" in d.reasons && Problem(d) == Str(TooLong)) <==> agent.minLength <= n && n > agent.maxLength
    ensures var n := |Strip(note)|;
            agent.minLength <= n && n > agent.maxLength ==> Decide(agent, transcript, note).action == Regenerate
  {
  }

  /** Rule 3: a missing section marker fires only when sections are required and the length is in range. */
  lemma DecideMissingSections(agent: SupervisorAgent, transcript: string, note: string)
    ensures var d := Decide(agent, transcript, note); var n := |Strip(note)|;
            ("problem" in d.reasons && Problem(d) == Str(MissingSections))
            <==> agent.minLength <= n <= agent.maxLength && agent.requireSections && !HasSections(note)
  {
  }

  /** `REGENERATE` is returned exactly when one of the three structural rules fails. */
  lemma DecideRegenerate(agent: SupervisorAgent, transcript: string, note: string)
    ensures Decide(agent, transcript, note).action == Regenerate <==> !PassesStructure(agent, note)
  {
  }

  /** The marker count is recorded exactly when the structural rules pass, and it is then
      the number of distinct markers present, at most five. */
  lemma DecideUncertaintyRecorded(agent: SupervisorAgent, transcript: string, note: string)
    ensures var d := Decide(agent, transcript, note);
            "uncertainty_markers" in d.reasons <==> PassesStructure(agent, note)
    ensures var d := Decide(agent, transcript, note);
            "uncertainty_markers" in d.reasons ==>
              d.reasons["uncertainty_markers"] == Int(UncertaintyHits(note)) && UncertaintyHits(note) <= 5
  {
    UncertaintyHitsBounded(note);
  }

  /** Rule 4: `HUMAN_REVIEW` exactly when the structure passes and three or more distinct markers occur. */
  lemma DecideHumanReview(agent: SupervisorAgent, transcript: string, note: string)
    ensures Decide(agent, transcript, note).action == HumanReview
            <==> PassesStructure(agent, note) && UncertaintyHits(note) >= 3
  {
  }

  /** Rule 5: `APPROVE`, with status "Passed basic checks", exactly when no other rule fires. */
  lemma DecideApprove(agent: SupervisorAgent, transcript: string, note: string)
    ensures var d := Decide(agent, transcript, note);
            d.action == Approve <==> PassesStructure(agent, note) && UncertaintyHits(note) < 3
    ensures var d := Decide(agent, transcript, note);
            d.action == Approve ==> "status" in d.reasons && d.reasons["status"] == Str(Passed)
                                    && "problem" !in d.reasons
  {
  }

  /** The verdict depends on the note alone. */
  lemma DecideIgnoresTranscript(agent: SupervisorAgent, t1: string, t2: string, note: string)
    ensures Decide(agent, t1, note) == Decide(agent, t2, note)
  {
  }

  /** A short four-section note is sent back for regeneration with its measured
      length, under the pipeline's minimum of 150. (The note is written in three
      pieces so that its first and last characters are visible to the verifier.) */
  lemma DecideShortNoteExample()
    ensures var note := "S" + ": cough\nO: normal vitals\nA: viral illness\nP: res" + "t";
            var d := Decide(NewSupervisorAgent(minLength := 150), "", note);
            d.action == Regenerate && d.reasons["length"] == Int(50) && d.reasons["problem"] == Str(TooShort)
  {
    var note := "S" + ": cough\nO: normal vitals\nA: viral illness\nP: res" + "t";
    assert note[0] == 'S' && note[49] == 't';
    StrippedIsFixed(note);
  }
}
