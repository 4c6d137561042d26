/**
  Planning state of a delivery work item: which combinations of type, status, Target PI and
  iteration may exist.
 */
module DeliveryPlanning {
  import opened JsText
  import opened DeliveryTaxonomy

  datatype Status = New | Ready | InProgress | Blocked | Finished | Parked | Retired

  datatype Planning = Planning(typeName: Text, status: Status, targetPi: Text, iteration: Text)

  datatype Fault =
    | TargetPiMissing
    | DefectOutsideBacklog
    | ActiveUncommitted
    | IterationMissing
    | BacklogIteration
    | StrayIteration
    | IterationMismatch

  const SLASH: CodeUnit := 0x2F
  const BACKLOG_LABEL: Text := T("Not committed to a PI iteration yet.")
  const PROGRAM_WIDE: Text := T("Program-wide / ")
  const PI_SEPARATOR: Text := T(" / ")

  predicate TargetPiRequired(t: Text) { t == OBJECTIVE || t == TASK || t == MILESTONE }

  predicate IterationRequired(t: Text) {
    t == OBJECTIVE || t == FEATURE || t == STORY || t == DEFECT || t == TASK || t == MILESTONE || t == RISK
  }

  predicate IsActive(s: Status) { s == Ready || s == InProgress || s == Blocked }

  /** deliveryIterationMatchesTargetPi, on trimmed texts */
  predicate Matches(targetPi: Text, iteration: Text) {
    targetPi == [] || iteration == [] || targetPi + PI_SEPARATOR <= iteration || PROGRAM_WIDE <= iteration
  }

  /** validateDeliveryPlanningState */
  function Validate(p: Planning): Option<Fault> {
    var t, pi, it := Trim(p.typeName), Trim(p.targetPi), Trim(p.iteration);
    if t == [] || t == EPIC then None
    else if p.status != Retired && TargetPiRequired(t) && pi == [] then Some(TargetPiMissing)
    else if t == DEFECT && pi == [] && p.status != Retired && p.status != New then Some(DefectOutsideBacklog)
    else if IsActive(p.status) && pi == [] then Some(ActiveUncommitted)
    else if IterationRequired(t) && pi != [] && it == [] then Some(IterationMissing)
    else if pi != [] && it == BACKLOG_LABEL then Some(BacklogIteration)
    else if pi == [] && it != [] && it != BACKLOG_LABEL then Some(StrayIteration)
    else if pi != [] && it != [] && !Matches(pi, it) then Some(IterationMismatch)
    else None
  }

  predicate Accepted(p: Planning) { Validate(p).None? }

  // ----- the accepted states -----

  lemma {:induction false} LabelHasNoSlash()
    ensures SLASH !in BACKLOG_LABEL && BACKLOG_LABEL != [] && Trim(BACKLOG_LABEL) == BACKLOG_LABEL
    ensures PI_SEPARATOR == [SPACE, SLASH, SPACE] && PROGRAM_WIDE[13] == SLASH
  {
    hide Trim;
    LiteralLacks("Not committed to a PI iteration yet.", '/');
    TrimmedTrim(BACKLOG_LABEL);
  }

  /** No Target PI reaches the backlog label, so the separate check for it never decides. */
  lemma {:induction false} LabelMatchesNoPi(pi: Text)
    requires pi != []
    ensures !Matches(pi, BACKLOG_LABEL)
  {
    hide T;
    LabelHasNoSlash();
    assert (pi + PI_SEPARATOR)[|pi| + 1] == SLASH;
    PrefixMember(pi + PI_SEPARATOR, BACKLOG_LABEL, SLASH);
    PrefixMember(PROGRAM_WIDE, BACKLOG_LABEL, SLASH);
  }

  lemma {:induction false} PrefixMember(p: Text, s: Text, c: CodeUnit)
    requires c in p
    ensures p <= s ==> c in s
  {
    var i :| 0 <= i < |p| && p[i] == c;
    if p <= s {
      assert s[i] == c;
    }
  }

  ghost const NEED_PI: set<Text> := {T("PI Objective"), T("Task"), T("Milestone")}
  ghost const NEED_ITERATION: set<Text> := NEED_PI + {T("Feature"), T("User story"), T("Defect"), T("Risk")}

  /** The statuses a type other than Epic may have while it is not committed to a PI. */
  ghost predicate BacklogStatus(t: Text, s: Status) {
    s == Retired || (t !in NEED_PI && (s == New || (t != T("Defect") && s in {Finished, Parked})))
  }

  /** An iteration of the Target PI, or a program-wide one. */
  ghost predicate IterationOf(pi: Text, iteration: Text) {
    exists rest :: iteration == pi + T(" / ") + rest || iteration == T("Program-wide / ") + rest
  }

  ghost predicate InBacklog(it: Text) { it == [] || it == T("Not committed to a PI iteration yet.") }

  lemma {:induction false} TypesNeeding(t: Text)
    ensures TargetPiRequired(t) <==> t in NEED_PI
    ensures IterationRequired(t) <==> t in NEED_ITERATION
  {
    hide T;
  }

  lemma {:induction false} MatchesIterations(pi: Text, iteration: Text)
    requires pi != [] && iteration != []
    ensures Matches(pi, iteration) <==> IterationOf(pi, iteration)
  {
    hide T;
    if pi + PI_SEPARATOR <= iteration {
      assert iteration == pi + T(" / ") + iteration[|pi + PI_SEPARATOR|..];
    }
    if PROGRAM_WIDE <= iteration {
      assert iteration == T("Program-wide / ") + iteration[|PROGRAM_WIDE|..];
    }
  }

  /** The accepted states exactly: a backlog half and a committed half. */
  lemma {:induction false} AcceptedStates(p: Planning)
    ensures var t, pi, it := Trim(p.typeName), Trim(p.targetPi), Trim(p.iteration);
            Accepted(p) <==>
            t == [] || t == T("Epic") ||
            (pi == [] && BacklogStatus(t, p.status) && InBacklog(it)) ||
            (pi != [] && it == [] && t !in NEED_ITERATION) ||
            (pi != [] && it != [] && IterationOf(pi, it))
  {
    hide T, Trim, TargetPiRequired, IterationRequired, Matches, IterationOf;
    var t, pi, it := Trim(p.typeName), Trim(p.targetPi), Trim(p.iteration);
    TypesNeeding(t);
    if pi != [] {
      LabelMatchesNoPi(pi);
      if it != [] { MatchesIterations(pi, it); }
    }
  }

  /** The first thing that is wrong with a planning state, in the order of the checks. */
  ghost predicate FaultSays(f: Fault, t: Text, s: Status, pi: Text, it: Text) {
    t != [] && t != T("Epic") &&
    var backlog := BacklogStatus(t, s);
    match f
    case TargetPiMissing => pi == [] && !backlog && t in NEED_PI
    case DefectOutsideBacklog => pi == [] && !backlog && t == T("Defect")
    case ActiveUncommitted => pi == [] && !backlog && t !in NEED_PI && t != T("Defect")
    case IterationMissing => pi != [] && it == [] && t in NEED_ITERATION
    case BacklogIteration => pi != [] && it == T("Not committed to a PI iteration yet.")
    case StrayIteration => pi == [] && backlog && !InBacklog(it)
    case IterationMismatch => pi != [] && !InBacklog(it) && !IterationOf(pi, it)
  }

  /** A refusal names the first of the seven faults the state has. */
  lemma {:induction false} FaultsTell(p: Planning, f: Fault)
    ensures Validate(p) == Some(f) <==> FaultSays(f, Trim(p.typeName), p.status, Trim(p.targetPi), Trim(p.iteration))
  {
    hide T, Trim, TargetPiRequired, IterationRequired, Matches, IterationOf;
    var t, pi, it := Trim(p.typeName), Trim(p.targetPi), Trim(p.iteration);
    TypesNeeding(t);
    DefectNeedsNoPi();
    LabelHasNoSlash();
    if pi != [] && it != [] { MatchesIterations(pi, it); }
  }

  lemma {:induction false} DefectNeedsNoPi()
    ensures T("Defect") !in NEED_PI
  {
    assert |OBJECTIVE| == 12 && |TASK| == 4 && |MILESTONE| == 9 && |DEFECT| == 6;
  }

  /** What a decommit asks for. */
  function Decommitted(p: Planning): Planning { p.(status := New, targetPi := [], iteration := BACKLOG_LABEL) }

  lemma {:induction false} DecommittedAccepted(p: Planning)
    ensures Accepted(Decommitted(p)) <==> Trim(p.typeName) == [] || !TargetPiRequired(Trim(p.typeName))
  {
    hide T, Trim, TargetPiRequired, IterationRequired, Matches;
    LabelHasNoSlash();
    TrimmedTrim([]);
    AcceptedStates(Decommitted(p));
    TypesNeeding(Trim(p.typeName));
    EpicNeedsNoPi();
  }

  lemma {:induction false} EpicNeedsNoPi()
    ensures !TargetPiRequired(EPIC)
  {
    assert |EPIC| == 4 && |OBJECTIVE| == 12 && |TASK| == 4 && |MILESTONE| == 9;
    assert EPIC[0] != TASK[0];
  }

  /** A state accepted while active is accepted in every status: only commitment lets work be active. */
  lemma {:induction false} ActiveAcceptedAnywhere(p: Planning, s: Status)
    requires Accepted(p) && IsActive(p.status)
    ensures Accepted(p.(status := s))
  {
    hide T, Trim, TargetPiRequired, IterationRequired, Matches;
    AcceptedStates(p);
    AcceptedStates(p.(status := s));
  }

  /** Carryover must be given a new iteration: one that is not program-wide belongs to at most one Target PI. */
  lemma {:induction false} IterationBelongsToOnePi(pi: Text, other: Text, iteration: Text)
    requires pi != [] && other != [] && iteration != [] && SLASH !in pi && SLASH !in other
    requires !(PROGRAM_WIDE <= iteration)
    requires Matches(pi, iteration) && Matches(other, iteration)
    ensures pi == other
  {
    hide T;
    LabelHasNoSlash();
    PiBeforeSlash(pi, iteration);
    PiBeforeSlash(other, iteration);
    FirstMark(iteration, |pi| + 1, |other| + 1, SLASH);
    assert pi == iteration[..|pi|] && other == iteration[..|pi|];
  }

  lemma {:induction false} PiBeforeSlash(pi: Text, iteration: Text)
    requires SLASH !in pi && PI_SEPARATOR == [SPACE, SLASH, SPACE] && pi + PI_SEPARATOR <= iteration
    ensures |pi| + 1 < |iteration| && pi == iteration[..|pi|] && iteration[|pi| + 1] == SLASH
    ensures forall k :: 0 <= k < |pi| + 1 ==> iteration[k] != SLASH
  {
    hide T;
    var head := pi + PI_SEPARATOR;
    assert forall k | 0 <= k < |head| :: iteration[k] == head[k];
  }
}
