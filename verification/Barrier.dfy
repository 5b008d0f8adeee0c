/** The resume barrier of aret-memory/hooks/resume_guard.py: a per-session lock
    armed with the fingerprint of the injected dossier and lifted by a complete
    acknowledgement carrying that fingerprint. */
module Barrier {
  import opened Basics
  import opened PythonText

  datatype Json = Str(s: string) | Other

  /** What `structured_content` / `structuredContent` may hold. */
  datatype Structured = Falsy | Dict(okIsFalse: bool) | Truthy

  datatype Response =
    | Absent
    | Obj(isError: bool, isErrorCamel: bool, snake: Structured, camel: Structured)
    | Text(s: string)
    | OtherResponse

  /** A hook payload; the three scope fields are "" when missing or falsy. */
  datatype Payload = Payload(
    sessionId: string, transcript: string, cwd: string,
    toolName: string, input: Option<map<string, Json>>, response: Response)

  /** The state file of one session, as far as it is read back. */
  datatype Record = Record(hard: bool, hash: string, recap: Option<map<string, string>>)

  type Files = map<string, Record>

  // ---- text -------------------------------------------------------------------------------

  /** Lower case, on the letters that matter for the failure marker. */
  function Lower(c: char): char {
    if 'A' <= c <= 'Z' then (((c as int) + 32) as char)
    else if c as int == 0x212A then 'k'
    else c
  }

  function Squeeze(s: string): string {
    if s == "" then "" else (if s[0] == ' ' then "" else [Lower(s[0])]) + Squeeze(s[1..])
  }

  predicate Contains(s: string, needle: string) {
    needle <= s || (s != "" && Contains(s[1..], needle))
  }

  predicate EndsWith(s: string, tail: string) { |tail| <= |s| && s[|s| - |tail|..] == tail }

  // ---- sessions -----------------------------------------------------------------------------

  /** The first scope field that is not blank names the session. */
  function Identity(p: Payload): Option<string> {
    if Strip(p.sessionId) != "" then Some("session_id:" + Strip(p.sessionId))
    else if Strip(p.transcript) != "" then Some("transcript_path:" + Strip(p.transcript))
    else if Strip(p.cwd) != "" then Some("cwd:" + Strip(p.cwd))
    else None
  }

  /** The file key; the truncated SHA-256 of it is taken to be injective. */
  function SessionKey(p: Payload): string {
    match Identity(p) case Some(id) => id case None => "unscoped"
  }

  /** Payloads without identity share a key with each other only. */
  lemma {:induction false} KeyIsIdentity(p: Payload, q: Payload)
    ensures SessionKey(p) == SessionKey(q) <==> Identity(p) == Identity(q)
  {
    NotUnscoped(p);
    NotUnscoped(q);
  }

  lemma {:induction false} NotUnscoped(p: Payload)
    ensures Identity(p).Some? ==> Identity(p).value != "unscoped"
  {
    if Identity(p).Some? { assert Identity(p).value[0] != 'u' && "unscoped"[0] == 'u'; }
  }

  // ---- the acknowledgement --------------------------------------------------------------------

  const RITUAL_FIELDS: seq<(string, nat)> := [
    ("working_rules", 80), ("current_state", 60), ("capabilities", 80),
    ("git_state", 40), ("risks_and_limits", 60), ("next_action", 30)
  ]

  function FieldText(recap: map<string, Json>, field: string): string {
    if field in recap && recap[field].Str? then Strip(recap[field].s) else ""
  }

  /** Every ritual section is there and long enough. */
  predicate Complete(recap: map<string, Json>) {
    forall i :: 0 <= i < |RITUAL_FIELDS| ==> |FieldText(recap, RITUAL_FIELDS[i].0)| >= RITUAL_FIELDS[i].1
  }

  function Clip(s: string): string { if |s| <= 4000 then s else s[..4000] }

  /** `validate_recap`; None stands for the ValueError. */
  method ValidateRecap(recap: map<string, Json>) returns (r: Option<map<string, string>>)
    ensures r.Some? <==> Complete(recap)
    ensures r.Some? ==> r.value == Normalized(recap, |RITUAL_FIELDS|)
  {
    var normalized: map<string, string> := map[];
    var failures := 0;
    for i := 0 to |RITUAL_FIELDS|
      invariant failures > 0 <==>
                exists j :: 0 <= j < i && |FieldText(recap, RITUAL_FIELDS[j].0)| < RITUAL_FIELDS[j].1
      invariant failures == 0 ==> normalized == Normalized(recap, i)
    {
      var (field, minimum) := RITUAL_FIELDS[i];
      var text := FieldText(recap, field);
      if |text| < minimum {
        failures := failures + 1;
      } else {
        normalized := normalized[field := Clip(text)];
      }
    }
    if failures > 0 { return None; }
    return Some(normalized);
  }

  /** The first `k` sections, trimmed and cut to 4000 characters. */
  function Normalized(recap: map<string, Json>, k: nat): map<string, string>
    requires k <= |RITUAL_FIELDS|
  {
    if k == 0 then map[]
    else
      var field := RITUAL_FIELDS[k - 1].0;
      Normalized(recap, k - 1)[field := Clip(FieldText(recap, field))]
  }

  predicate IsAcknowledgement(p: Payload) { EndsWith(p.toolName, "__aret_acknowledge_resume") }

  predicate ToolSucceeded(r: Response) {
    match r
    case Obj(a, b, snake, camel) =>
      var structured := if snake.Falsy? then camel else snake;
      !a && !b && !(structured.Dict? && structured.okIsFalse)
    case Text(s) => !Contains(Squeeze(s), "\"ok\":false")
    case _ => true
  }

  predicate ValidHash(h: string) {
    |h| == 64 && forall i :: 0 <= i < 64 ==> '0' <= h[i] <= '9' || 'a' <= h[i] <= 'f'
  }

  /** The payload acknowledges the dossier with fingerprint `hash`. */
  predicate Acknowledges(p: Payload, hash: string) {
    && Identity(p).Some? && IsAcknowledgement(p) && ToolSucceeded(p.response)
    && p.input.Some? && Complete(p.input.value)
    && "resume_contract_hash" in p.input.value && p.input.value["resume_contract_hash"] == Str(hash)
  }

  // ---- the three hooks as one state machine -----------------------------------------------------

  datatype Event =
    | Arm(p: Payload, hash: string, ready: bool)
    | Answer(p: Payload)
    | Ask(p: Payload)

  function AfterArm(files: Files, p: Payload, hash: string, ready: bool): Files {
    if ValidHash(hash) then files[SessionKey(p) := Record(ready, hash, None)] else files
  }

  function AfterAnswer(files: Files, p: Payload): Files {
    var k := SessionKey(p);
    if k in files && Acknowledges(p, files[k].hash)
    then files[k := files[k].(recap := Some(Normalized(p.input.value, |RITUAL_FIELDS|)))]
    else files
  }

  function Step(files: Files, e: Event): Files {
    match e
    case Arm(p, hash, ready) => AfterArm(files, p, hash, ready)
    case Answer(p) => AfterAnswer(files, p)
    case Ask(_) => files
  }

  function Run(es: seq<Event>): Files {
    if es == [] then map[] else Step(Run(es[..|es| - 1]), es[|es| - 1])
  }

  /** `decision`: is the tool request denied? */
  predicate Denied(files: Files, disabled: bool, p: Payload) {
    var k := SessionKey(p);
    && !disabled
    && k in files && files[k].hard
    && (Identity(p).None? || (files[k].recap.None? && !IsAcknowledgement(p)))
  }

  /** The hooks over the per-session files. */
  class Guard {
    var files: Files
    const disabled: bool

    constructor (disabled: bool)
      ensures files == map[] && this.disabled == disabled
    {
      this.disabled, files := disabled, map[];
    }

    method Arm(p: Payload, hash: string, ready: bool) returns (ok: bool)
      modifies this
      ensures ok == ValidHash(hash)
      ensures files == Step(old(files), Event.Arm(p, hash, ready))
    {
      if !ValidHash(hash) { return false; }
      files := files[SessionKey(p) := Record(ready, hash, None)];
      return true;
    }

    method Acknowledge(p: Payload)
      modifies this
      ensures files == Step(old(files), Answer(p))
    {
      var k := SessionKey(p);
      if Identity(p).None? || k !in files || !IsAcknowledgement(p) || !ToolSucceeded(p.response) || p.input.None? {
        return;
      }
      var recap := p.input.value;
      var normalized := ValidateRecap(recap);
      if normalized.None? { return; }
      if "resume_contract_hash" !in recap || recap["resume_contract_hash"] != Str(files[k].hash) { return; }
      files := files[k := files[k].(recap := normalized)];
    }

    method Decide(p: Payload) returns (deny: bool)
      ensures deny == Denied(files, disabled, p)
    {
      if disabled { return false; }
      var k := SessionKey(p);
      if k !in files { return false; }
      if !files[k].hard { return false; }
      if Identity(p).None? { return true; }
      if files[k].recap.Some? { return false; }
      return !IsAcknowledgement(p);
    }
  }

  // ---- the protocol, from the history alone -------------------------------------------------------

  predicate ArmsSession(e: Event, k: string) { e.Arm? && SessionKey(e.p) == k && ValidHash(e.hash) }

  predicate Lifts(e: Event, k: string, hash: string) { e.Answer? && SessionKey(e.p) == k && Acknowledges(e.p, hash) }

  /** Event `i` is the session's latest arming. */
  ghost predicate LatestArm(es: seq<Event>, k: string, i: int) {
    && 0 <= i < |es| && ArmsSession(es[i], k)
    && forall j :: i < j < |es| ==> !ArmsSession(es[j], k)
  }

  ghost predicate LiftedSince(es: seq<Event>, k: string, i: int, hash: string) {
    exists j :: 0 <= i < j < |es| && Lifts(es[j], k, hash)
  }

  /** The state file of a session is the record of its latest arming, acknowledged
      exactly if a matching acknowledgement came after it. */
  lemma {:induction false} FileIsHistory(es: seq<Event>, k: string)
    ensures k in Run(es) <==> exists i :: LatestArm(es, k, i)
    ensures forall i :: LatestArm(es, k, i) ==>
              && k in Run(es) && Run(es)[k].hard == es[i].ready && Run(es)[k].hash == es[i].hash
              && (Run(es)[k].recap.Some? <==> LiftedSince(es, k, i, es[i].hash))
    decreases |es|
  {
    if es != [] {
      var before, e := es[..|es| - 1], es[|es| - 1];
      FileIsHistory(before, k);
      if ArmsSession(e, k) {
        assert LatestArm(es, k, |es| - 1);
        forall i | LatestArm(es, k, i) ensures i == |es| - 1 {}
      } else {
        forall i ensures LatestArm(es, k, i) <==> LatestArm(before, k, i) { LatestKept(es, k, i); }
        forall i | LatestArm(es, k, i)
          ensures LiftedSince(es, k, i, es[i].hash) <==> LiftedSince(before, k, i, es[i].hash) || Lifts(e, k, es[i].hash)
        {
          LiftedGrows(es, k, i, es[i].hash);
        }
        StepElsewhere(Run(before), e, k);
      }
    }
  }

  lemma {:induction false} LatestKept(es: seq<Event>, k: string, i: int)
    requires es != [] && !ArmsSession(es[|es| - 1], k)
    ensures LatestArm(es, k, i) <==> LatestArm(es[..|es| - 1], k, i)
  {
    hide ArmsSession;
    var before := es[..|es| - 1];
    if LatestArm(before, k, i) {
      forall j | i < j < |es| ensures !ArmsSession(es[j], k) {
        if j < |before| { assert before[j] == es[j]; }
      }
    }
    if LatestArm(es, k, i) {
      forall j | i < j < |before| ensures !ArmsSession(before[j], k) { assert before[j] == es[j]; }
    }
  }

  lemma {:induction false} LiftedGrows(es: seq<Event>, k: string, i: nat, hash: string)
    requires i < |es| - 1
    ensures LiftedSince(es, k, i, hash) <==>
            LiftedSince(es[..|es| - 1], k, i, hash) || Lifts(es[|es| - 1], k, hash)
  {
    hide Lifts;
    var before := es[..|es| - 1];
    if LiftedSince(before, k, i, hash) {
      var j :| i < j < |before| && Lifts(before[j], k, hash);
      assert Lifts(es[j], k, hash);
    }
    if LiftedSince(es, k, i, hash) {
      var j :| i < j < |es| && Lifts(es[j], k, hash);
      if j < |before| { assert Lifts(before[j], k, hash); }
    }
  }

  /** One event that does not arm the session: its record changes only by an
      acknowledgement with its own fingerprint. */
  lemma {:induction false} StepElsewhere(files: Files, e: Event, k: string)
    requires !ArmsSession(e, k)
    ensures k in Step(files, e) <==> k in files
    ensures k in files ==>
              && Step(files, e)[k].hard == files[k].hard && Step(files, e)[k].hash == files[k].hash
              && (Step(files, e)[k].recap.Some? <==> files[k].recap.Some? || Lifts(e, k, files[k].hash))
  {
    hide Acknowledges, SessionKey, ValidHash;
  }

  /** The barrier protocol, over every interleaving of sessions and with the kill
      switch off: a request is denied exactly when its session's latest arming was
      hard and, for an identified session, the request is not the acknowledgement
      itself and no acknowledgement with that arming's fingerprint has succeeded
      since. For an unidentified session nothing but a soft re-arm helps. */
  lemma {:induction false} BarrierProtocol(es: seq<Event>, p: Payload)
    ensures Denied(Run(es), false, p) <==>
            exists i ::
              && LatestArm(es, SessionKey(p), i) && es[i].ready
              && (Identity(p).None? ||
                  (!IsAcknowledgement(p) && !LiftedSince(es, SessionKey(p), i, es[i].hash)))
    ensures !Denied(Run(es), true, p)
  {
    hide Run, LiftedSince, IsAcknowledgement, SessionKey;
    var k := SessionKey(p);
    FileIsHistory(es, k);
    if Denied(Run(es), false, p) {
      var i :| LatestArm(es, k, i);
    }
  }

  function ForSession(es: seq<Event>, k: string): seq<Event> {
    if es == [] then []
    else
      var e := es[|es| - 1];
      ForSession(es[..|es| - 1], k) + if SessionKey(e.p) == k then [e] else []
  }

  /** Other sessions' events never matter. */
  lemma {:induction false} SessionsAreIsolated(es: seq<Event>, p: Payload, disabled: bool)
    ensures Denied(Run(es), disabled, p) == Denied(Run(ForSession(es, SessionKey(p))), disabled, p)
  {
    SameRecord(es, SessionKey(p));
  }

  lemma {:induction false} SameRecord(es: seq<Event>, k: string)
    ensures var own := Run(ForSession(es, k));
            (k in Run(es) <==> k in own) && (k in own ==> Run(es)[k] == own[k])
    decreases |es|
  {
    hide Step;
    if es != [] {
      var before, e := es[..|es| - 1], es[|es| - 1];
      SameRecord(before, k);
      StepLocal(Run(before), Run(ForSession(before, k)), e, k);
      if SessionKey(e.p) == k {
        var own := ForSession(before, k) + [e];
        assert own[..|own| - 1] == ForSession(before, k);
      } else {
        assert ForSession(before, k) + [] == ForSession(before, k);
      }
    }
  }

  /** An event acts on its own session's record only, and looks at nothing else. */
  lemma {:induction false} StepLocal(files: Files, files': Files, e: Event, k: string)
    requires (k in files <==> k in files') && (k in files ==> files[k] == files'[k])
    ensures var s, s' := Step(files, e), Step(files', e);
            (k in s <==> k in s') && (k in s ==> s[k] == s'[k])
    ensures SessionKey(e.p) != k ==>
              (k in Step(files, e) <==> k in files) && (k in files ==> Step(files, e)[k] == files[k])
  {
    hide Acknowledges, SessionKey, ValidHash, Normalized;
  }

  /** What follows a hard arming, as long as the session is not armed again: other
      requests are denied until, and only until, one acknowledgement with the armed
      fingerprint succeeds; an unidentified session stays closed. A new hard arming
      starts over, whatever came before. */
  lemma {:induction false} AfterHardArming(es: seq<Event>, e: Event, more: seq<Event>, p: Payload)
    requires ArmsSession(e, SessionKey(p)) && e.ready
    requires forall x :: x in more ==> !ArmsSession(x, SessionKey(p))
    ensures Denied(Run(es + [e] + more), false, p) <==>
            || Identity(p).None?
            || (!IsAcknowledgement(p) && forall x :: x in more ==> !Lifts(x, SessionKey(p), e.hash))
  {
    hide Run, Lifts, IsAcknowledgement, SessionKey, Denied;
    var all, k, hash := es + [e] + more, SessionKey(p), e.hash;
    BarrierProtocol(all, p);
    OnlyLatest(es, e, more, k);
    hide LatestArm, ArmsSession;
    if x :| x in more && Lifts(x, k, hash) {
      var j :| 0 <= j < |more| && more[j] == x;
      assert Lifts(all[|es| + 1 + j], k, hash);
    }
    assert forall j :: |es| < j < |all| ==> all[j] in more;
  }

  lemma {:induction false} OnlyLatest(es: seq<Event>, e: Event, more: seq<Event>, k: string)
    requires ArmsSession(e, k) && forall x :: x in more ==> !ArmsSession(x, k)
    ensures var all := es + [e] + more; all[|es|] == e && forall i :: LatestArm(all, k, i) <==> i == |es|
  {
    hide ArmsSession;
    var all := es + [e] + more;
    assert forall j :: |es| < j < |all| ==> all[j] in more;
  }

  /** A soft arming opens the session for everyone. */
  lemma {:induction false} AfterSoftArming(es: seq<Event>, e: Event, more: seq<Event>, p: Payload)
    requires ArmsSession(e, SessionKey(p)) && !e.ready
    requires forall x :: x in more ==> !ArmsSession(x, SessionKey(p))
    ensures !Denied(Run(es + [e] + more), false, p)
  {
    hide Run, LiftedSince, IsAcknowledgement, SessionKey, Denied;
    BarrierProtocol(es + [e] + more, p);
    OnlyLatest(es, e, more, SessionKey(p));
    hide LatestArm;
  }
}
