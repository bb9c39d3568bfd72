/** Acceptance criteria: their validation, and the import of the criteria older contexts declared. */
module Acceptance {
  import opened Prelude
  import opened JsonPointer
  import opened Completion

  datatype Verification = SelfAttested | DeterministicCheck | ArtifactCheck | IndependentReview | HumanReview

  datatype Artifact = Artifact(path: string, machine: string)

  datatype Check = Check(command: string, machine: string, cwd: string, readOnly: bool, timeout: nat)

  datatype AcceptanceCriterion = AcceptanceCriterion(
    id: string,
    requirement: string,
    verification: Verification,
    allowNotApplicable: bool,
    requiresIndependentReview: bool,
    requiredArtifactKinds: seq<string>,
    check: Option<Check>,
    artifact: Option<Artifact>,
    legacyPath: Option<string>)

  datatype InvalidInput =
    | TooMany
    | BadIdOrRequirement
    | LegacyReserved
    | ArtifactMissing
    | BadArtifact
    | ArtifactUnexpected
    | CheckMissing
    | BadCheck
    | CheckUnexpected

  predicate IsIdChar(c: char) {
    '0' <= c <= '9' || 'A' <= c <= 'Z' || 'a' <= c <= 'z' || c == '-' || c == '_' || c == '.'
  }

  /** Length in bytes of the UTF-8 encoding. */
  function Utf8Length(text: string): nat {
    if text == "" then 0
    else
      var c := text[0];
      (if c < '\U{0080}' then 1 else if c < '\U{0800}' then 2 else if c < '\U{10000}' then 3 else 4)
      + Utf8Length(text[1..])
  }

  predicate GoodId(id: string) {
    id != "" && Utf8Length(id) <= 100 && forall i :: 0 <= i < |id| ==> IsIdChar(id[i])
  }

  predicate Absolute(path: string) {
    path != "" && path[0] == '/'
  }

  predicate GoodArtifact(a: Artifact) {
    Absolute(a.path) && !Blank(a.machine)
  }

  predicate GoodCheck(c: Check) {
    c.readOnly && !Blank(c.command) && Utf8Length(c.command) <= 8192 && !Blank(c.machine) && Absolute(c.cwd)
    && 1 <= c.timeout <= 30
  }

  // ---------------------------------------------------------------- validation

  /** A criterion that may stand alone in a contract. */
  predicate Acceptable(c: AcceptanceCriterion) {
    && GoodId(c.id) && !Blank(c.requirement) && c.legacyPath.None?
    && (c.artifact.Some? <==> c.verification.ArtifactCheck?) && (c.artifact.Some? ==> GoodArtifact(c.artifact.value))
    && (c.check.Some? <==> c.verification.DeterministicCheck?) && (c.check.Some? ==> GoodCheck(c.check.value))
  }

  ghost predicate DistinctIds(criteria: seq<AcceptanceCriterion>) {
    forall i, j :: 0 <= i < j < |criteria| ==> criteria[i].id != criteria[j].id
  }

  ghost predicate AllAcceptable(criteria: seq<AcceptanceCriterion>) {
    DistinctIds(criteria) && forall i :: 0 <= i < |criteria| ==> Acceptable(criteria[i])
  }

  /** Criterion `i` is the first that cannot join those before it. */
  ghost predicate FirstBad(criteria: seq<AcceptanceCriterion>, i: nat) {
    i < |criteria| && AllAcceptable(criteria[..i]) && !AllAcceptable(criteria[..i + 1])
  }

  /** The complaint fits the criterion at fault. */
  ghost predicate Explains(e: InvalidInput, criteria: seq<AcceptanceCriterion>, i: nat)
    requires i < |criteria|
  {
    var c := criteria[i];
    match e
    case TooMany => false
    case BadIdOrRequirement => !GoodId(c.id) || Blank(c.requirement) || exists j :: 0 <= j < i && criteria[j].id == c.id
    case LegacyReserved => c.legacyPath.Some?
    case ArtifactMissing => c.verification.ArtifactCheck? && c.artifact.None?
    case BadArtifact => c.artifact.Some? && !GoodArtifact(c.artifact.value)
    case ArtifactUnexpected => !c.verification.ArtifactCheck? && c.artifact.Some?
    case CheckMissing => c.verification.DeterministicCheck? && c.check.None?
    case BadCheck => c.check.Some? && !GoodCheck(c.check.value)
    case CheckUnexpected => !c.verification.DeterministicCheck? && c.check.Some?
  }

  /**
   Accepts exactly the lists of at most a hundred acceptable criteria with distinct ids, and
   otherwise names what is wrong with the first criterion at fault.
   */
  method ValidateAcceptance(criteria: seq<AcceptanceCriterion>) returns (r: Result<(), InvalidInput>)
    ensures r.Ok? <==> |criteria| <= 100 && AllAcceptable(criteria)
    ensures r == Err(TooMany) <==> |criteria| > 100
    ensures r.Err? && r.error != TooMany ==> exists i :: FirstBad(criteria, i) && Explains(r.error, criteria, i)
  {
    hide Blank, Utf8Length, IsIdChar;
    var ids: set<string> := {};
    if |criteria| > 100 {
      return Err(TooMany);
    }
    for i := 0 to |criteria|
      invariant ids == set j | 0 <= j < i :: criteria[j].id
      invariant AllAcceptable(criteria[..i])
    {
      var c := criteria[i];
      Joins(criteria, i);
      var problem := None;
      if c.id == "" || Utf8Length(c.id) > 100 || (exists k :: 0 <= k < |c.id| && !IsIdChar(c.id[k]))
         || c.id in ids || Blank(c.requirement) {
        problem := Some(BadIdOrRequirement);
      } else if c.legacyPath.Some? {
        problem := Some(LegacyReserved);
      } else if c.verification.ArtifactCheck? && c.artifact.None? {
        problem := Some(ArtifactMissing);
      } else if c.verification.ArtifactCheck?
                && (c.artifact.value.path == "" || c.artifact.value.path[0] != '/' || Blank(c.artifact.value.machine)) {
        problem := Some(BadArtifact);
      } else if !c.verification.ArtifactCheck? && c.artifact.Some? {
        problem := Some(ArtifactUnexpected);
      } else if c.verification.DeterministicCheck? && c.check.None? {
        problem := Some(CheckMissing);
      } else if c.verification.DeterministicCheck?
                && (!c.check.value.readOnly || Blank(c.check.value.command) || Utf8Length(c.check.value.command) > 8192
                    || Blank(c.check.value.machine) || c.check.value.cwd == "" || c.check.value.cwd[0] != '/'
                    || c.check.value.timeout < 1 || c.check.value.timeout > 30) {
        problem := Some(BadCheck);
      } else if !c.verification.DeterministicCheck? && c.check.Some? {
        problem := Some(CheckUnexpected);
      }
      if problem.Some? {
        assert FirstBad(criteria, i) && Explains(problem.value, criteria, i);
        return Err(problem.value);
      }
      ids := ids + {c.id};
    }
    assert criteria[..|criteria|] == criteria;
    return Ok(());
  }

  /** A criterion joins an acceptable prefix exactly when it is acceptable and its id is new. */
  lemma Joins(criteria: seq<AcceptanceCriterion>, i: nat)
    requires i < |criteria|
    ensures AllAcceptable(criteria[..i + 1]) <==>
              AllAcceptable(criteria[..i]) && Acceptable(criteria[i])
              && forall j :: 0 <= j < i ==> criteria[j].id != criteria[i].id
    ensures AllAcceptable(criteria) ==> AllAcceptable(criteria[..i + 1])
  {
    hide Acceptable;
    var one, two := criteria[..i], criteria[..i + 1];
    assert forall j :: 0 <= j < i ==> one[j] == two[j] == criteria[j];
    assert two[i] == criteria[i];
  }

  // ---------------------------------------------------------------- legacy import

  /** The requirement of a declared criterion as one text. */
  function RequirementText(codec: Codec, requirement: Json): string {
    if requirement.Str? then requirement.text else codec.render(requirement)
  }

  function ImportLegacy(codec: Codec, order: MemberOrder, constraints: Json): seq<AcceptanceCriterion> {
    var criteria := CriteriaOf(order, constraints);
    seq(|criteria|, i requires 0 <= i < |criteria| =>
      AcceptanceCriterion("legacy-" + Decimal(i + 1), RequirementText(codec, criteria[i].requirement),
                          SelfAttested, false, false, [], None, None, Some(criteria[i].path)))
  }

  /**
   The import keeps the criteria and their order under distinct ids, and each legacy path still
   leads to what its requirement was printed from.
   */
  lemma LegacyImportKeepsCriteria(codec: Codec, order: MemberOrder, constraints: Json, i: nat)
    requires Enumerates(order) && i < |ImportLegacy(codec, order, constraints)|
    ensures |ImportLegacy(codec, order, constraints)| == |CriteriaOf(order, constraints)|
    ensures var c := ImportLegacy(codec, order, constraints)[i];
            && c.id == "legacy-" + Decimal(i + 1)
            && c.legacyPath == Some(CriteriaOf(order, constraints)[i].path)
            && Evaluate(constraints, c.legacyPath.value).Some?
            && (var found := Evaluate(constraints, c.legacyPath.value).value;
                c.requirement == if found.Str? then found.text else codec.render(found))
            && c.verification == SelfAttested && !c.allowNotApplicable && !c.requiresIndependentReview
            && c.requiredArtifactKinds == [] && c.check == None && c.artifact == None
    ensures forall j :: 0 <= j < i ==>
              ImportLegacy(codec, order, constraints)[j].id != ImportLegacy(codec, order, constraints)[i].id
  {
    PathsResolve(order, constraints, i);
    forall j: nat | j < i
      ensures ImportLegacy(codec, order, constraints)[j].id != ImportLegacy(codec, order, constraints)[i].id
    {
      LegacyIdsDiffer(j + 1, i + 1);
    }
  }

  lemma LegacyIdsDiffer(m: nat, n: nat)
    requires m != n
    ensures "legacy-" + Decimal(m) != "legacy-" + Decimal(n)
  {
    DecimalShape(m);
    DecimalShape(n);
    assert ("legacy-" + Decimal(m))[7..] == Decimal(m);
    assert ("legacy-" + Decimal(n))[7..] == Decimal(n);
  }

  /** A JSON printer never prints only white space. */
  ghost predicate PrintsText(codec: Codec) {
    forall value: Json :: !Blank(codec.render(value))
  }

  function WithoutPath(c: AcceptanceCriterion): AcceptanceCriterion {
    c.(legacyPath := None)
  }

  /** The imported criteria as a contract published anew would state them. */
  function Republished(imported: seq<AcceptanceCriterion>): seq<AcceptanceCriterion> {
    seq(|imported|, i requires 0 <= i < |imported| => WithoutPath(imported[i]))
  }

  lemma {:induction false} AsciiLength(text: string)
    requires forall i :: 0 <= i < |text| ==> text[i] < '\U{0080}'
    ensures Utf8Length(text) == |text|
    decreases |text|
  {
    if text != "" {
      AsciiLength(text[1..]);
    }
  }

  lemma LegacyIdIsGood(n: nat)
    requires n <= 100
    ensures GoodId("legacy-" + Decimal(n))
  {
    var id := "legacy-" + Decimal(n);
    DecimalShape(n);
    assert |Decimal(n / 10)| <= 2 by {
      assert n >= 10 ==> |Decimal(n / 100)| == 1;
    }
    assert id[..7] == ['l', 'e', 'g', 'a', 'c', 'y', '-'];
    forall i | 0 <= i < |id|
      ensures IsIdChar(id[i]) && id[i] < '\U{0080}'
    {
      if i < 7 {
        assert id[i] == id[..7][i];
      } else {
        assert id[i] == Decimal(n)[i - 7];
      }
    }
    AsciiLength(id);
  }

  /**
   Imported criteria are for migration: validation refuses them as they are, and once their paths
   are dropped it accepts them exactly when there are at most a hundred and no text among the
   declared requirements is blank.
   */
  lemma ImportPassesIff(codec: Codec, order: MemberOrder, constraints: Json)
    requires PrintsText(codec)
    ensures AllAcceptable(ImportLegacy(codec, order, constraints)) <==> CriteriaOf(order, constraints) == []
    ensures var again := Republished(ImportLegacy(codec, order, constraints));
            var criteria := CriteriaOf(order, constraints);
            |again| <= 100 && AllAcceptable(again) <==>
              |criteria| <= 100
              && forall i :: 0 <= i < |criteria| ==>
                   !(criteria[i].requirement.Str? && Blank(criteria[i].requirement.text))
  {
    hide Blank, GoodId, CriteriaOf;
    var criteria := CriteriaOf(order, constraints);
    var imported := ImportLegacy(codec, order, constraints);
    var again := Republished(imported);
    if criteria != [] {
      assert !Acceptable(imported[0]);
    }
    if |criteria| <= 100 {
      forall i: nat, j: nat | i < j < |again|
        ensures again[i].id != again[j].id
      {
        LegacyIdsDiffer(i + 1, j + 1);
      }
      forall i: nat | i < |again|
        ensures Acceptable(again[i]) <==> !(criteria[i].requirement.Str? && Blank(criteria[i].requirement.text))
      {
        LegacyIdIsGood(i + 1);
        assert !Blank(codec.render(criteria[i].requirement));
      }
    }
  }
}
