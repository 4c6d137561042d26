/**
  Delivery taxonomy: subject prefixes, the classification they imply, and the resolution of
  type, classification and subject.
 */
module DeliveryTaxonomy {
  import opened JsText

  datatype Failure =
    | TypeRequired
    | UnsupportedType
    | SubjectRequired
    | WrongParent
    | UnknownClassification
    | PrefixContradictsClassification
    | ClassificationNotAllowed
    | PrefixNotAllowed
    | PrefixContradictsType

  datatype Result<+A> = Ok(value: A) | Err(failure: Failure)

  // ----- vocabulary -----

  const FEATURE: Text := T("Feature")
  const TASK: Text := T("Task")
  const STORY: Text := T("User story")
  const OBJECTIVE: Text := T("PI Objective")
  const MILESTONE: Text := T("Milestone")
  const DEFECT: Text := T("Defect")
  const RISK: Text := T("Risk")
  const EPIC: Text := T("Epic")
  const BUSINESS: Text := T("Business")
  const ENABLER: Text := T("Enabler")
  const IMPROVEMENT: Text := T("Improvement")

  /** DELIVERY_ALL_KNOWN_SUBJECT_PREFIXES, in order. */
  const KNOWN_PREFIXES: seq<Text> :=
    [FEATURE, TASK, STORY, OBJECTIVE, MILESTONE, DEFECT, RISK, ENABLER, IMPROVEMENT]

  predicate IsSemantic(prefix: Text) {
    prefix == DEFECT || prefix == RISK || prefix == ENABLER || prefix == IMPROVEMENT
  }

  predicate IsStructural(t: Text) {
    t == EPIC || t == OBJECTIVE || t == FEATURE || t == STORY || t == DEFECT || t == TASK || t == MILESTONE || t == RISK
  }

  predicate SupportsClassification(t: Text) { t == FEATURE || t == STORY }

  predicate IsClassification(c: Text) { c == BUSINESS || c == ENABLER || c == IMPROVEMENT }

  /** DELIVERY_ALLOWED_PARENT_TYPES_BY_TYPE; a type without an entry may have any parent or none. */
  predicate ParentAllowed(t: Text, parent: Text) {
    if t == FEATURE || t == OBJECTIVE || t == MILESTONE || t == RISK then parent == EPIC
    else if t == STORY then parent == FEATURE
    else if t == DEFECT then parent == EPIC || parent == FEATURE || parent == STORY
    else if t == TASK then parent == STORY || parent == DEFECT
    else true
  }

  // ----- prefixes -----

  /** The pattern ^prefix: matches, ignoring case. */
  predicate Carries(prefix: Text, s: Text) {
    |prefix| < |s| && s[|prefix|] == COLON && forall i :: 0 <= i < |prefix| ==> Lower(s[i]) == Lower(prefix[i])
  }

  function FirstCarried(prefixes: seq<Text>, s: Text): (r: Option<Text>)
    ensures r.Some? ==> r.value in prefixes && Carries(r.value, s)
    ensures r.None? ==> forall p | p in prefixes :: !Carries(p, s)
  {
    if prefixes == [] then None
    else if Carries(prefixes[0], s) then Some(prefixes[0])
    else FirstCarried(prefixes[1..], s)
  }

  /** detectDeliverySubjectPrefix */
  function Detect(s: Text): (r: Option<Text>)
    ensures r.Some? ==> r.value in KNOWN_PREFIXES && Carries(r.value, s)
    ensures r.None? ==> forall p | p in KNOWN_PREFIXES :: !Carries(p, s)
  {
    FirstCarried(KNOWN_PREFIXES, s)
  }

  /** stripDeliverySubjectPrefix: the alternation takes the first prefix that matches, with the blanks after it. */
  function Strip(s: Text): Text {
    match FirstCarried(KNOWN_PREFIXES, s)
    case Some(p) => Trim(TrimStart(s[|p| + 1..]))
    case None => Trim(s)
  }

  /** derivedDeliverySubjectPrefix */
  function Derived(t: Text, classification: Option<Text>): Option<Text> {
    if t == DEFECT || t == RISK then Some(t)
    else if classification == Some(ENABLER) || classification == Some(IMPROVEMENT) then classification
    else None
  }

  /** renderDeliverySubject */
  function RenderSubject(s: Text, t: Text, classification: Option<Text>): Text {
    match Derived(t, classification)
    case Some(p) => p + T(": ") + Strip(s)
    case None => Strip(s)
  }

  // ----- resolution -----

  /** normalizeDeliveryClassification; an absent value is given as the empty text. */
  function GivenClassification(c: Text): Option<Text> { if Trim(c) == [] then None else Some(Trim(c)) }

  function Inferred(s: Text): Option<Text> {
    if Detect(s) == Some(ENABLER) || Detect(s) == Some(IMPROVEMENT) then Detect(s) else None
  }

  /** resolveDeliveryClassification, for a structural type. */
  function ResolveClassification(t: Text, given: Option<Text>, inferred: Option<Text>): Result<Option<Text>> {
    if SupportsClassification(t) then
      if given.Some? && !IsClassification(given.value) then Err(UnknownClassification)
      else if given.Some? && inferred.Some? && given != inferred then Err(PrefixContradictsClassification)
      else Ok(if given.Some? then given else if inferred.Some? then inferred else Some(BUSINESS))
    else if given.Some? then Err(ClassificationNotAllowed)
    else if inferred.Some? then Err(PrefixNotAllowed)
    else Ok(None)
  }

  datatype Resolved = Resolved(typeName: Text, classification: Option<Text>, subject: Text)

  /** resolveDeliveryTaxonomy */
  function Resolve(
    typeName: Text, classification: Text, parent: Text, enforceParent: bool, subject: Text): Result<Resolved> {
    var t, s := Trim(typeName), Trim(subject);
    if t == [] then Err(TypeRequired)
    else if !IsStructural(t) then Err(UnsupportedType)
    else if s == [] then Err(SubjectRequired)
    else if enforceParent && !ParentAllowed(t, Trim(parent)) then Err(WrongParent)
    else
      match ResolveClassification(t, GivenClassification(classification), Inferred(s))
      case Err(f) => Err(f)
      case Ok(c) =>
        if Detect(s).Some? && IsSemantic(Detect(s).value) && Detect(s) != Derived(t, c) then Err(PrefixContradictsType)
        else Ok(Resolved(t, c, RenderSubject(s, t, c)))
  }

  // ----- one prefix at most -----

  lemma {:induction false} KnownPrefixFacts(p: Text)
    requires p in KNOWN_PREFIXES
    ensures p != [] && COLON !in p && !IsSpace(p[0])
  {
    LiteralLacks("Feature", ':');
    LiteralLacks("Task", ':');
    LiteralLacks("User story", ':');
    LiteralLacks("PI Objective", ':');
    LiteralLacks("Milestone", ':');
    LiteralLacks("Defect", ':');
    LiteralLacks("Risk", ':');
    LiteralLacks("Enabler", ':');
    LiteralLacks("Improvement", ':');
  }

  lemma {:induction false} TaskTrimmed()
    ensures TASK != [] && Trimmed(TASK)
  {
    assert |TASK| == 4 && TASK[0] == 0x54 && TASK[3] == 0x6B;
  }

  /** Known prefixes differ in length or in their first letter, whatever its case. */
  lemma {:induction false} KnownPrefixesApart(p: Text, q: Text)
    requires p in KNOWN_PREFIXES && q in KNOWN_PREFIXES && |p| == |q| && Lower(p[0]) == Lower(q[0])
    ensures p == q
  {
    assert |FEATURE| == 7 && |TASK| == 4 && |STORY| == 10 && |OBJECTIVE| == 12 && |MILESTONE| == 9;
    assert |DEFECT| == 6 && |RISK| == 4 && |ENABLER| == 7 && |IMPROVEMENT| == 11;
    assert Lower(FEATURE[0]) != Lower(ENABLER[0]) && Lower(TASK[0]) != Lower(RISK[0]);
  }

  lemma {:induction false} ColonAfterPrefix(p: Text, s: Text)
    requires COLON !in p && Carries(p, s)
    ensures s[|p|] == COLON && forall k :: 0 <= k < |p| ==> s[k] != COLON
  {
    forall k | 0 <= k < |p| ensures s[k] != COLON {
      assert p[k] in p && Lower(s[k]) == Lower(p[k]);
    }
  }

  /** At most one known prefix matches a subject, so detection and stripping always speak of the same one. */
  lemma {:induction false} OnePrefix(p: Text, q: Text, s: Text)
    requires p in KNOWN_PREFIXES && q in KNOWN_PREFIXES && Carries(p, s) && Carries(q, s)
    ensures p == q
  {
    hide T;
    KnownPrefixFacts(p);
    KnownPrefixFacts(q);
    ColonAfterPrefix(p, s);
    ColonAfterPrefix(q, s);
    FirstMark(s, |p|, |q|, COLON);
    assert Lower(s[0]) == Lower(p[0]) && Lower(s[0]) == Lower(q[0]);
    KnownPrefixesApart(p, q);
  }

  lemma {:induction false} DetectsThe(p: Text, s: Text)
    requires p in KNOWN_PREFIXES && Carries(p, s)
    ensures Detect(s) == Some(p)
  {
    hide T, FirstCarried;
    OnePrefix(p, Detect(s).value, s);
  }

  // ----- trimming -----

  lemma {:induction false} TrimmedTrim(s: Text)
    ensures Trimmed(Trim(s)) && (Trimmed(s) ==> Trim(s) == s) && |Trim(s)| <= |s|
  {
    var left, right := TrimShape(s);
    if Trimmed(s) {
      TrimUnique([], s, []);
      assert [] + s + [] == s;
    }
  }

  /** What stripping leaves behind a detected prefix. */
  lemma {:induction false} StripCarried(p: Text, s: Text)
    requires p in KNOWN_PREFIXES && Carries(p, s)
    ensures Strip(s) == Trim(s[|p| + 1..]) && |Strip(s)| < |s| && Trimmed(Strip(s))
  {
    hide T, FirstCarried, Trim, TrimStart;
    OnePrefix(p, Detect(s).value, s);
    var rest := s[|p| + 1..];
    TrimOfTrimStart(rest);
    TrimmedTrim(rest);
  }

  lemma {:induction false} TrimOfTrimStart(s: Text)
    ensures Trim(TrimStart(s)) == Trim(s)
  {
    var left := TrimStartShape(s);
    var l, r := TrimShape(TrimStart(s));
    assert s == (left + l) + Trim(TrimStart(s)) + r;
    TrimUnique(left + l, Trim(TrimStart(s)), r);
  }

  lemma {:induction false} StripBare(s: Text)
    requires Detect(s) == None
    ensures Strip(s) == Trim(s) && Trimmed(Strip(s))
  {
    hide T, FirstCarried;
    TrimmedTrim(s);
  }

  lemma {:induction false} StripTrimmed(s: Text)
    ensures Trimmed(Strip(s))
  {
    hide T;
    if Detect(s).Some? {
      StripCarried(Detect(s).value, s);
    } else {
      StripBare(s);
    }
  }

  // ----- resolving a resolution -----

  function AsText(c: Option<Text>): Text { if c.Some? then c.value else [] }

  /** A derived prefix is a known one. */
  lemma {:induction false} DerivedKnown(t: Text, c: Option<Text>)
    ensures Derived(t, c).Some? ==> Derived(t, c).value in KNOWN_PREFIXES
  {
    hide T;
    assert KNOWN_PREFIXES[5] == DEFECT && KNOWN_PREFIXES[6] == RISK;
    assert KNOWN_PREFIXES[7] == ENABLER && KNOWN_PREFIXES[8] == IMPROVEMENT;
  }

  /** The rendered subject after trimming: an empty residue loses the blank behind the colon. */
  function Core(p: Text, residue: Text): Text {
    if residue == [] then p + [COLON] else p + [COLON, SPACE] + residue
  }

  lemma {:induction false} RenderedTrims(p: Text, residue: Text)
    requires p != [] && !IsSpace(p[0]) && Trimmed(residue)
    ensures Trim(p + T(": ") + residue) == Core(p, residue)
  {
    hide Trim;
    var core := Core(p, residue);
    var colon: Text := [COLON, SPACE];
    assert T(": ") == colon;
    if residue == [] {
      assert [] + core + [SPACE] == p + colon + residue;
      TrimUnique([], core, [SPACE]);
    } else {
      assert [] + core + [] == p + colon + residue;
      assert core[|core| - 1] == residue[|residue| - 1];
      TrimUnique([], core, []);
    }
  }

  lemma {:induction false} CoreStrips(p: Text, residue: Text)
    requires p in KNOWN_PREFIXES && Trimmed(residue)
    ensures var s := Core(p, residue);
            Detect(s) == Some(p) && Strip(s) == residue
  {
    hide T, Trim, Detect, Strip;
    var core := Core(p, residue);
    assert core[|p|] == COLON && forall i :: 0 <= i < |p| ==> core[i] == p[i];
    DetectsThe(p, core);
    StripCarried(p, core);
    if residue == [] {
      assert core[|p| + 1..] == [];
      TrimmedTrim([]);
    } else {
      assert core[|p| + 1..] == [SPACE] + residue + [];
      TrimUnique([SPACE], residue, []);
    }
  }

  /** A subject rendered with a prefix carries exactly that prefix, and stripping undoes the rendering. */
  lemma {:induction false} RenderedWithPrefix(p: Text, residue: Text)
    requires p in KNOWN_PREFIXES && Trimmed(residue)
    ensures var s := Trim(p + T(": ") + residue);
            s != [] && Detect(s) == Some(p) && Strip(s) == residue
  {
    hide T, Trim, Detect, Strip;
    KnownPrefixFacts(p);
    RenderedTrims(p, residue);
    CoreStrips(p, residue);
  }

  /** The facts a successful resolution rests on. */
  lemma {:induction false} ResolvedFacts(
    typeName: Text, classification: Text, parent: Text, enforceParent: bool, subject: Text)
    requires Resolve(typeName, classification, parent, enforceParent, subject).Ok?
    ensures var r := Resolve(typeName, classification, parent, enforceParent, subject).value;
            IsStructural(r.typeName) && Trim(r.typeName) == r.typeName &&
            (enforceParent ==> ParentAllowed(r.typeName, Trim(parent))) &&
            (SupportsClassification(r.typeName) <==> r.classification.Some?) &&
            (r.classification.Some? ==> IsClassification(r.classification.value)) &&
            r.subject == RenderSubject(Trim(subject), r.typeName, r.classification)
  {
    hide T, Detect, Trim, Strip;
    TrimmedTrim(typeName);
    TrimmedTrim(Trim(typeName));
    InferredKnown(Trim(subject));
  }

  lemma {:induction false} InferredKnown(s: Text)
    ensures Inferred(s).Some? ==> IsClassification(Inferred(s).value)
  {
    hide T, Detect;
  }

  lemma {:induction false} GivenAgain(c: Option<Text>)
    requires c.Some? ==> IsClassification(c.value)
    ensures GivenClassification(AsText(c)) == c
  {
    if c.Some? {
      TrimmedTrim(c.value);
    } else {
      TrimmedTrim([]);
    }
  }

  /** Resolving an accepted output again gives the same output exactly when a prefix is derived, or the
      residue is non-empty and carries no known prefix. */
  lemma {:induction false} TaxonomyFixpoint(
    typeName: Text, classification: Text, parent: Text, enforceParent: bool, subject: Text)
    requires Resolve(typeName, classification, parent, enforceParent, subject).Ok?
    ensures var r := Resolve(typeName, classification, parent, enforceParent, subject).value;
            var residue := Strip(Trim(subject));
            Resolve(r.typeName, AsText(r.classification), parent, enforceParent, r.subject) == Ok(r) <==>
            Derived(r.typeName, r.classification).Some? || (residue != [] && Detect(residue) == None)
  {
    hide Trim, Strip, Detect, T, Resolve, IsStructural, ParentAllowed, IsClassification;
    var r := Resolve(typeName, classification, parent, enforceParent, subject).value;
    ResolvedFacts(typeName, classification, parent, enforceParent, subject);
    GivenAgain(r.classification);
    StripTrimmed(Trim(subject));
    if Derived(r.typeName, r.classification).Some? {
      PrefixedFixpoint(r, parent, enforceParent, Strip(Trim(subject)));
    } else {
      BareFixpoint(r, parent, enforceParent, Strip(Trim(subject)));
    }
  }

  lemma {:induction false} TypesNotEmpty(t: Text)
    requires IsStructural(t)
    ensures t != []
  {
  }

  lemma {:induction false} PrefixedFixpoint(r: Resolved, parent: Text, enforceParent: bool, residue: Text)
    requires IsStructural(r.typeName) && Trim(r.typeName) == r.typeName && Trimmed(residue)
    requires enforceParent ==> ParentAllowed(r.typeName, Trim(parent))
    requires SupportsClassification(r.typeName) <==> r.classification.Some?
    requires r.classification.Some? ==> IsClassification(r.classification.value)
    requires GivenClassification(AsText(r.classification)) == r.classification
    requires Derived(r.typeName, r.classification).Some?
    requires r.subject == Derived(r.typeName, r.classification).value + T(": ") + residue
    ensures Resolve(r.typeName, AsText(r.classification), parent, enforceParent, r.subject) == Ok(r)
  {
    hide Trim, Strip, Detect, IsStructural, ParentAllowed, T;
    var p := Derived(r.typeName, r.classification).value;
    TypesNotEmpty(r.typeName);
    DerivedKnown(r.typeName, r.classification);
    RenderedWithPrefix(p, residue);
    VocabularyApart();
  }

  lemma {:induction false} VocabularyApart()
    ensures DEFECT != ENABLER && DEFECT != IMPROVEMENT && RISK != ENABLER && RISK != IMPROVEMENT
    ensures !SupportsClassification(DEFECT) && !SupportsClassification(RISK)
  {
    assert |DEFECT| == 6 && |RISK| == 4 && |ENABLER| == 7 && |IMPROVEMENT| == 11 && |FEATURE| == 7 && |STORY| == 10;
  }

  lemma {:induction false} BareFixpoint(r: Resolved, parent: Text, enforceParent: bool, residue: Text)
    requires IsStructural(r.typeName) && Trim(r.typeName) == r.typeName && Trimmed(residue)
    requires enforceParent ==> ParentAllowed(r.typeName, Trim(parent))
    requires SupportsClassification(r.typeName) <==> r.classification.Some?
    requires r.classification.Some? ==> IsClassification(r.classification.value)
    requires GivenClassification(AsText(r.classification)) == r.classification
    requires Derived(r.typeName, r.classification).None? && r.subject == residue
    ensures Resolve(r.typeName, AsText(r.classification), parent, enforceParent, residue) == Ok(r) <==>
            residue != [] && Detect(residue) == None
  {
    hide Trim, Strip, Detect, IsStructural, ParentAllowed, T, IsClassification;
    TypesNotEmpty(r.typeName);
    TrimmedTrim(residue);
    if Detect(residue).Some? {
      DetectCarries(residue);
      StripCarried(Detect(residue).value, residue);
    } else {
      StripBare(residue);
    }
  }

  lemma {:induction false} DetectCarries(s: Text)
    requires Detect(s).Some?
    ensures Detect(s).value in KNOWN_PREFIXES && Carries(Detect(s).value, s)
  {
  }

  /** A second resolution changes what the first accepted: the subject of a Feature that says a legacy prefix, one
      that is never derived, twice. */
  lemma {:induction false} LegacyPrefixResolvesTwice(p: Text, rest: Text, parent: Text)
    requires p in KNOWN_PREFIXES && !IsSemantic(p) && rest != [] && Trimmed(rest) && Detect(rest) == None
    ensures var once := p + [COLON] + rest;
            var r := Resolve(FEATURE, [], parent, false, p + [COLON] + once);
            r == Ok(Resolved(FEATURE, Some(BUSINESS), once)) &&
            Resolve(FEATURE, BUSINESS, parent, false, once) == Ok(Resolved(FEATURE, Some(BUSINESS), rest))
  {
    var once := p + [COLON] + rest;
    var s := p + [COLON] + once;
    LegacyStrips(p, once);
    LegacyStrips(p, rest);
    FeatureFacts();
    hide T, Trim, Detect, Strip, IsSemantic, Inferred;
    KnownPrefixFacts(p);
    assert once[0] == p[0] && once[|once| - 1] == rest[|rest| - 1];
    TrimmedTrim(rest);
    TrimmedTrim(once);
    assert s[0] == p[0] && s[|s| - 1] == rest[|rest| - 1];
    TrimmedTrim(s);
  }

  lemma {:induction false} LegacyStrips(p: Text, rest: Text)
    requires p in KNOWN_PREFIXES && !IsSemantic(p)
    ensures var s := p + [COLON] + rest;
            Detect(s) == Some(p) && Inferred(s) == None && Strip(s) == Trim(rest)
  {
    var s := p + [COLON] + rest;
    LegacyDetected(p, rest);
    hide T, Trim, Detect, Strip, IsSemantic, Inferred;
    StripCarried(p, s);
    assert s[|p| + 1..] == rest;
  }

  lemma {:induction false} LegacyDetected(p: Text, rest: Text)
    requires p in KNOWN_PREFIXES && !IsSemantic(p)
    ensures var s := p + [COLON] + rest;
            Carries(p, s) && Detect(s) == Some(p) && Inferred(s) == None
  {
    hide T, Detect;
    var s := p + [COLON] + rest;
    assert s[|p|] == COLON && forall i :: 0 <= i < |p| ==> s[i] == p[i];
    DetectsThe(p, s);
  }

  lemma {:induction false} FeatureFacts()
    ensures Trim(FEATURE) == FEATURE && FEATURE != [] && Trim(BUSINESS) == BUSINESS && BUSINESS != [] && Trim([]) == []
    ensures FEATURE != DEFECT && FEATURE != RISK && BUSINESS != ENABLER && BUSINESS != IMPROVEMENT
  {
    assert |FEATURE| == 7 && FEATURE[0] == 0x46 && FEATURE[6] == 0x65;
    assert |BUSINESS| == 8 && BUSINESS[0] == 0x42 && BUSINESS[7] == 0x73;
    assert |DEFECT| == 6 && |RISK| == 4 && |ENABLER| == 7 && |IMPROVEMENT| == 11;
    TrimmedTrim(FEATURE);
    TrimmedTrim(BUSINESS);
    TrimmedTrim([]);
  }

  // ----- what is accepted, and as what -----

  /** DELIVERY_ALLOWED_PARENT_TYPES_BY_TYPE as pairs of a type and a parent type. */
  ghost const PARENTS: set<(Text, Text)> :=
    {(T("Feature"), T("Epic")), (T("PI Objective"), T("Epic")), (T("Milestone"), T("Epic")), (T("Risk"), T("Epic")),
     (T("User story"), T("Feature")), (T("Defect"), T("Epic")), (T("Defect"), T("Feature")),
     (T("Defect"), T("User story")), (T("Task"), T("User story")), (T("Task"), T("Defect"))}

  ghost const CLASSIFIED: set<Text> := {T("Feature"), T("User story")}
  ghost const STANDALONE: set<Text> :=
    {T("Epic"), T("PI Objective"), T("Defect"), T("Task"), T("Milestone"), T("Risk")}
  ghost const BY_CLASSIFICATION: set<Text> := {T("Enabler"), T("Improvement")}
  ghost const BY_TYPE: set<Text> := {T("Defect"), T("Risk")}

  ghost const CLASSIFICATIONS: set<Text> := {T("Business"), T("Enabler"), T("Improvement")}

  ghost const PREFIXES: set<Text> :=
    {T("Feature"), T("Task"), T("User story"), T("PI Objective"), T("Milestone")} + BY_TYPE + BY_CLASSIFICATION

  /** The subject carries one of the prefixes, in any case of letters. */
  ghost predicate Says(prefixes: set<Text>, s: Text) { exists p | p in prefixes :: Carries(p, s) }

  /** What a classified type is taken for: what was given, or else what the subject says, or else Business. Both may
      speak if they agree; a subject that says another type is not taken. */
  ghost predicate Classifies(given: Text, s: Text, c: Text) {
    c in CLASSIFICATIONS && !Says(BY_TYPE, s) &&
    (given != [] ==> c == given) &&
    (given == [] && c != T("Business") ==> Carries(c, s)) &&
    forall p | p in BY_CLASSIFICATION && Carries(p, s) :: p == c
  }

  /** Any other type takes no classification, given or said, and a subject that says no other type. */
  ghost predicate StandsAlone(t: Text, given: Text, s: Text) {
    given == [] && !Says(BY_CLASSIFICATION, s) && !Says(BY_TYPE - {t}, s)
  }

  ghost predicate ParentTaken(t: Text, parent: Text) { t == T("Epic") || (t, parent) in PARENTS }

  /** A subject without the known prefix it carries, if it carries one. */
  ghost predicate Residue(s: Text, residue: Text) {
    (forall p | p in PREFIXES && Carries(p, s) :: residue == Trim(s[|p| + 1..])) &&
    (!Says(PREFIXES, s) ==> residue == Trim(s))
  }

  ghost predicate Headed(t: Text, c: Option<Text>, residue: Text, subject: Text) {
    if t in BY_TYPE then subject == t + T(": ") + residue
    else if c.Some? && c.value in BY_CLASSIFICATION then subject == c.value + T(": ") + residue
    else subject == residue
  }

  ghost predicate ResolvesTo(
    typeName: Text, classification: Text, parent: Text, enforceParent: bool, subject: Text, r: Resolved) {
    var t, given, s := Trim(typeName), Trim(classification), Trim(subject);
    r.typeName == t && s != [] && (enforceParent ==> ParentTaken(t, Trim(parent))) &&
    (if r.classification.Some? then t in CLASSIFIED && Classifies(given, s, r.classification.value)
     else t in STANDALONE && StandsAlone(t, given, s)) &&
    exists residue :: Residue(s, residue) && Headed(t, r.classification, residue, r.subject)
  }

  /** The first thing that is wrong, in the order of the checks. */
  ghost predicate RefusedFor(
    typeName: Text, classification: Text, parent: Text, enforceParent: bool, subject: Text, f: Failure) {
    var t, given, s := Trim(typeName), Trim(classification), Trim(subject);
    var known := t in CLASSIFIED + STANDALONE;
    var placed := known && s != [] && (enforceParent ==> ParentTaken(t, Trim(parent)));
    match f
    case TypeRequired => t == []
    case UnsupportedType => t != [] && !known
    case SubjectRequired => known && s == []
    case WrongParent => known && s != [] && !placed
    case UnknownClassification => placed && t in CLASSIFIED && given != [] && given !in CLASSIFICATIONS
    case PrefixContradictsClassification =>
      placed && t in CLASSIFIED && given in CLASSIFICATIONS && Says(BY_CLASSIFICATION - {given}, s)
    case ClassificationNotAllowed => placed && t in STANDALONE && given != []
    case PrefixNotAllowed => placed && t in STANDALONE && given == [] && Says(BY_CLASSIFICATION, s)
    case PrefixContradictsType =>
      placed && Says(BY_TYPE - {t}, s) && (t in STANDALONE ==> given == []) &&
      (t in CLASSIFIED ==> given in CLASSIFICATIONS + {[]})
  }

  lemma {:induction false} SaysDetected(prefixes: set<Text>, s: Text)
    requires forall p | p in prefixes :: p in KNOWN_PREFIXES
    ensures Says(prefixes, s) <==> Detect(s).Some? && Detect(s).value in prefixes
  {
    hide T, FirstCarried;
    if p :| p in prefixes && Carries(p, s) {
      DetectsThe(p, s);
    }
  }

  lemma {:induction false} CarriedIsDetected(p: Text, s: Text)
    requires p in KNOWN_PREFIXES
    ensures Carries(p, s) <==> Detect(s) == Some(p)
  {
    hide T, FirstCarried;
    if Carries(p, s) {
      DetectsThe(p, s);
    }
  }

  lemma {:induction false} ParentsTaken(t: Text, parent: Text)
    requires t in CLASSIFIED + STANDALONE
    ensures ParentAllowed(t, parent) <==> ParentTaken(t, parent)
  {
    assert |FEATURE| == 7 && |STORY| == 10 && |OBJECTIVE| == 12 && |MILESTONE| == 9 && |DEFECT| == 6;
    assert |TASK| == 4 && |EPIC| == 4 && |RISK| == 4 && TASK[0] == 0x54 && EPIC[0] == 0x45 && RISK[0] == 0x52;
    hide T;
  }

  lemma {:induction false} PrefixesKnown()
    ensures forall p :: p in PREFIXES <==> p in KNOWN_PREFIXES
  {
    hide T;
    assert KNOWN_PREFIXES[0] == FEATURE && KNOWN_PREFIXES[1] == TASK && KNOWN_PREFIXES[2] == STORY;
    assert KNOWN_PREFIXES[3] == OBJECTIVE && KNOWN_PREFIXES[4] == MILESTONE;
    WordsKnown();
  }

  lemma {:induction false} ResidueIsStrip(s: Text, residue: Text)
    ensures Residue(s, residue) <==> residue == Strip(s)
  {
    hide T, FirstCarried, Trim;
    PrefixesKnown();
    SaysDetected(PREFIXES, s);
    if Detect(s).Some? {
      DetectCarries(s);
      var p := Detect(s).value;
      StripCarried(p, s);
      forall q | q in KNOWN_PREFIXES && Carries(q, s) ensures q == p {
        OnePrefix(p, q, s);
      }
    } else {
      StripBare(s);
    }
  }

  lemma {:induction false} WordsKnown()
    ensures DEFECT in KNOWN_PREFIXES && RISK in KNOWN_PREFIXES && ENABLER in KNOWN_PREFIXES &&
            IMPROVEMENT in KNOWN_PREFIXES
    ensures BY_TYPE == {DEFECT, RISK} && BY_CLASSIFICATION == {ENABLER, IMPROVEMENT}
    ensures CLASSIFICATIONS == {BUSINESS, ENABLER, IMPROVEMENT}
    ensures CLASSIFIED == {FEATURE, STORY} && STANDALONE == {EPIC, OBJECTIVE, DEFECT, TASK, MILESTONE, RISK}
    ensures [] !in CLASSIFICATIONS
  {
    hide T;
    assert KNOWN_PREFIXES[5] == DEFECT && KNOWN_PREFIXES[6] == RISK;
    assert KNOWN_PREFIXES[7] == ENABLER && KNOWN_PREFIXES[8] == IMPROVEMENT;
    assert |T("Business")| == 8 && |T("Enabler")| == 7 && |T("Improvement")| == 11;
  }

  lemma {:induction false} TypesApart()
    ensures CLASSIFIED !! STANDALONE && CLASSIFIED !! BY_TYPE && BY_TYPE !! BY_CLASSIFICATION
    ensures BUSINESS !in BY_CLASSIFICATION && [] !in CLASSIFIED && [] !in STANDALONE
  {
    assert |FEATURE| == 7 && |TASK| == 4 && |STORY| == 10 && |OBJECTIVE| == 12 && |MILESTONE| == 9 && |EPIC| == 4;
    assert |DEFECT| == 6 && |RISK| == 4 && |ENABLER| == 7 && |IMPROVEMENT| == 11 && |BUSINESS| == 8;
  }

  lemma {:induction false} HeadedIsRendered(t: Text, c: Option<Text>, s: Text, subject: Text)
    ensures (exists residue :: Residue(s, residue) && Headed(t, c, residue, subject)) <==>
            subject == RenderSubject(s, t, c)
  {
    hide T, Residue, Strip;
    WordsKnown();
    ResidueIsStrip(s, Strip(s));
    forall residue | Residue(s, residue) ensures residue == Strip(s) {
      ResidueIsStrip(s, residue);
    }
    if subject == RenderSubject(s, t, c) {
      assert Residue(s, Strip(s)) && Headed(t, c, Strip(s), subject);
    }
  }

  /** A resolution is accepted, and as what, exactly by type, parent, given classification and carried prefix. */
  lemma {:induction false} ResolvesExactly(
    typeName: Text, classification: Text, parent: Text, enforceParent: bool, subject: Text, r: Resolved)
    ensures Resolve(typeName, classification, parent, enforceParent, subject) == Ok(r) <==>
            ResolvesTo(typeName, classification, parent, enforceParent, subject, r)
  {
    hide T, Trim, Detect, Strip, Residue, ParentAllowed, ParentTaken, Says, Carries, RenderSubject, Headed;
    var t, s := Trim(typeName), Trim(subject);
    WordsKnown();
    TypesApart();
    if t in CLASSIFIED + STANDALONE { ParentsTaken(t, Trim(parent)); }
    SaysDetected(BY_TYPE, s);
    SaysDetected(BY_TYPE - {t}, s);
    SaysDetected(BY_CLASSIFICATION, s);
    CarriedIsDetected(ENABLER, s);
    CarriedIsDetected(IMPROVEMENT, s);
    HeadedIsRendered(t, r.classification, s, r.subject);
  }

  /** And a refusal names the first of them that is wrong. */
  lemma {:induction false} RefusesExactly(
    typeName: Text, classification: Text, parent: Text, enforceParent: bool, subject: Text, f: Failure)
    ensures Resolve(typeName, classification, parent, enforceParent, subject) == Err(f) <==>
            RefusedFor(typeName, classification, parent, enforceParent, subject, f)
  {
    hide T, Trim, Detect, Strip, ParentAllowed, ParentTaken, Says, Carries, RenderSubject;
    var t, s := Trim(typeName), Trim(subject);
    WordsKnown();
    TypesApart();
    if t in CLASSIFIED + STANDALONE { ParentsTaken(t, Trim(parent)); }
    SaysDetected(BY_TYPE - {t}, s);
    SaysDetected(BY_CLASSIFICATION, s);
    SaysDetected(BY_CLASSIFICATION - {Trim(classification)}, s);
  }
}
