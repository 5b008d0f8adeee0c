/** The texts and records of the resume barrier
    (aret-memory/hooks/resume_guard.py:22-64, 133-192), said literally. */
module BarrierLaws {
  import opened Basics
  import opened PythonText
  import opened Barrier

  /** The six sections and their minimum lengths. */
  lemma {:induction false} SixSections(recap: map<string, Json>)
    ensures Complete(recap) <==>
            && |FieldText(recap, "working_rules")| >= 80 && |FieldText(recap, "current_state")| >= 60
            && |FieldText(recap, "capabilities")| >= 80 && |FieldText(recap, "git_state")| >= 40
            && |FieldText(recap, "risks_and_limits")| >= 60 && |FieldText(recap, "next_action")| >= 30
  {
    hide FieldText;
    var fs := RITUAL_FIELDS;
    assert fs[0] == ("working_rules", 80) && fs[1] == ("current_state", 60) && fs[2] == ("capabilities", 80);
    assert fs[3] == ("git_state", 40) && fs[4] == ("risks_and_limits", 60) && fs[5] == ("next_action", 30) && |fs| == 6;
  }

  /** A section counts without the white space around it; one that is no text counts as
      empty. */
  lemma {:induction false} SectionText(recap: map<string, Json>, field: string, pre: string, s: string, post: string)
    requires AllSpace(pre) && AllSpace(post) && Trimmed(s)
    ensures field in recap && recap[field] == Str(pre + s + post) ==> FieldText(recap, field) == s
    ensures field !in recap || recap[field] == Other ==> FieldText(recap, field) == ""
  {
    StripMeaning(pre, s, post);
  }

  /** What an acknowledgement leaves in the record: exactly the six sections, each its text
      cut at 4000 characters; hash and mode stay. */
  lemma {:induction false} RecapStored(files: Files, p: Payload, i: nat)
    requires SessionKey(p) in files && Acknowledges(p, files[SessionKey(p)].hash) && i < 6
    ensures var rec, old' := Step(files, Answer(p))[SessionKey(p)], files[SessionKey(p)];
            && rec.hard == old'.hard && rec.hash == old'.hash && rec.recap.Some?
            && var field := RITUAL_FIELDS[i].0;
               && field in rec.recap.value
               && rec.recap.value[field] <= FieldText(p.input.value, field)
               && |rec.recap.value[field]| == (if |FieldText(p.input.value, field)| < 4000 then |FieldText(p.input.value, field)| else 4000)
               && (forall f :: f in rec.recap.value ==> IsSection(f, 6))
  {
    hide SessionKey, FieldText, Complete;
    NormalizedAt(p.input.value, 6, i);
    forall f | f in Normalized(p.input.value, 6) ensures IsSection(f, 6) { NormalizedKeys(p.input.value, 6, f); }
    hide Normalized;
  }

  ghost predicate IsSection(f: string, k: nat) { exists j :: 0 <= j < k <= 6 && RITUAL_FIELDS[j].0 == f }

  lemma {:induction false} NormalizedKeys(recap: map<string, Json>, k: nat, f: string)
    requires k <= 6 && f in Normalized(recap, k)
    ensures IsSection(f, k)
    decreases k
  {
    hide FieldText, Clip;
    var own := RITUAL_FIELDS[k - 1].0;
    if f != own {
      NormalizedKeys(recap, k - 1, f);
      var j :| 0 <= j < k - 1 && RITUAL_FIELDS[j].0 == f;
      assert RITUAL_FIELDS[j].0 == f;
    } else {
      assert RITUAL_FIELDS[k - 1].0 == f;
    }
  }

  lemma {:induction false} NormalizedAt(recap: map<string, Json>, k: nat, i: nat)
    requires i < k <= 6
    ensures RITUAL_FIELDS[i].0 in Normalized(recap, k)
    ensures Normalized(recap, k)[RITUAL_FIELDS[i].0] == Clip(FieldText(recap, RITUAL_FIELDS[i].0))
    decreases k
  {
    hide FieldText, Clip;
    if i != k - 1 {
      DistinctFields(i, k - 1);
      NormalizedAt(recap, k - 1, i);
    }
  }

  lemma {:induction false} DistinctFields(i: nat, j: nat)
    requires i < 6 && j < 6 && i != j
    ensures RITUAL_FIELDS[i].0 != RITUAL_FIELDS[j].0
  {
    assert "working_rules"[0] == 'w' && "current_state"[0] == 'c' && "capabilities"[0] == 'c' && "git_state"[0] == 'g'
        && "risks_and_limits"[0] == 'r' && "next_action"[0] == 'n' && "current_state"[1] == 'u' && "capabilities"[1] == 'a';
  }

  // ---- identities -------------------------------------------------------------------------------

  /** Who a payload belongs to: its session id when it has one, else its transcript, else
      its directory; white space around them does not matter, and an id of one kind is
      never taken for another's. */
  lemma {:induction false} IdentityScopes(p: Payload, q: Payload)
    ensures Identity(p).None? <==> Strip(p.sessionId) == "" && Strip(p.transcript) == "" && Strip(p.cwd) == ""
    ensures Strip(p.sessionId) != "" && Strip(q.sessionId) != "" ==>
              (Identity(p) == Identity(q) <==> Strip(p.sessionId) == Strip(q.sessionId))
    ensures Strip(p.sessionId) != "" && Strip(q.sessionId) == "" ==> Identity(p) != Identity(q)
    ensures Strip(p.sessionId) == Strip(q.sessionId) == "" && Strip(p.transcript) != "" && Strip(q.transcript) != "" ==>
              (Identity(p) == Identity(q) <==> Strip(p.transcript) == Strip(q.transcript))
    ensures Strip(p.sessionId) == Strip(q.sessionId) == "" && Strip(p.transcript) != "" && Strip(q.transcript) == "" ==>
              Identity(p) != Identity(q)
    ensures Strip(p.sessionId) == Strip(q.sessionId) == Strip(p.transcript) == Strip(q.transcript) == "" ==>
              (Identity(p) == Identity(q) <==> Strip(p.cwd) == Strip(q.cwd))
  {
    hide Strip;
    Kinds(Strip(p.sessionId), Strip(q.transcript), Strip(q.cwd));
    Kinds(Strip(q.sessionId), Strip(p.transcript), Strip(p.cwd));
    Kinds("", Strip(p.transcript), Strip(q.cwd));
    SameRest("session_id:", Strip(p.sessionId), Strip(q.sessionId));
    SameRest("transcript_path:", Strip(p.transcript), Strip(q.transcript));
    SameRest("cwd:", Strip(p.cwd), Strip(q.cwd));
  }

  lemma {:induction false} Kinds(a: string, b: string, c: string)
    ensures "session_id:" + a != "transcript_path:" + b && "session_id:" + a != "cwd:" + c && "transcript_path:" + b != "cwd:" + c
  {
    assert ("session_id:" + a)[0] == 's' && ("transcript_path:" + b)[0] == 't' && ("cwd:" + c)[0] == 'c';
  }

  lemma {:induction false} SameRest(x: string, a: string, b: string)
    ensures x + a == x + b <==> a == b
  {
    if x + a == x + b { assert (x + a)[|x|..] == a && (x + b)[|x|..] == b; }
  }

  // ---- tools --------------------------------------------------------------------------------------

  /** `needle` occurs in `s` from position i on. */
  predicate OccursAt(s: string, needle: string, i: nat) { i <= |s| && needle <= s[i..] }

  lemma {:induction false} ContainsMeaning(s: string, needle: string)
    ensures Contains(s, needle) <==> exists i :: OccursAt(s, needle, i)
    decreases |s|
  {
    assert s[0..] == s;
    if needle <= s { assert OccursAt(s, needle, 0); }
    if s != "" {
      ContainsMeaning(s[1..], needle);
      forall i: nat ensures OccursAt(s[1..], needle, i) <==> OccursAt(s, needle, i + 1) {
        if i <= |s[1..]| { assert s[1..][i..] == s[i + 1..]; }
      }
      if i: nat :| OccursAt(s, needle, i) && i > 0 { assert OccursAt(s[1..], needle, i - 1); }
    }
  }

  /** A tool's textual answer counts as a failure exactly when, blanks aside and in lower
      case, it says that ok is false somewhere. */
  lemma {:induction false} TextFailure(s: string)
    ensures ToolSucceeded(Text(s)) <==> !exists i :: OccursAt(Squeeze(s), "\"ok\":false", i)
  {
    ContainsMeaning(Squeeze(s), "\"ok\":false");
  }

  /** A structured answer fails by either error flag or by ok being false, the snake-case
      form first. */
  lemma {:induction false} ObjectFailure(a: bool, b: bool, snake: Structured, camel: Structured)
    ensures a || b ==> !ToolSucceeded(Obj(a, b, snake, camel))
    ensures snake == Dict(true) ==> !ToolSucceeded(Obj(a, b, snake, camel))
    ensures snake.Falsy? && camel == Dict(true) ==> !ToolSucceeded(Obj(a, b, snake, camel))
    ensures !a && !b && (snake.Truthy? || snake == Dict(false)) ==> ToolSucceeded(Obj(a, b, snake, camel))
    ensures !a && !b && snake.Falsy? && camel != Dict(true) ==> ToolSucceeded(Obj(a, b, snake, camel))
  {}

  /** The acknowledgement tool, under any server's prefix. */
  lemma {:induction false} AcknowledgementName(p: Payload)
    ensures IsAcknowledgement(p) <==> exists pre :: p.toolName == pre + "__aret_acknowledge_resume"
  {
    var tail := "__aret_acknowledge_resume";
    if IsAcknowledgement(p) { assert p.toolName == p.toolName[..|p.toolName| - |tail|] + tail; }
    if pre :| p.toolName == pre + tail { assert p.toolName[|p.toolName| - |tail|..] == tail; }
  }
}
