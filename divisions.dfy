/** Divisions and their programs: the rule pairing program names with
    divisions, the roles eligible as leads and maintainers, the optional
    `chama_group` on updates, the resolution of a URL's division and
    program-type segments to a program, the search over configured fields,
    the trainee endpoints and the page size. */
module Divisions {
  import opened Common
  import opened Strings
  import Seqs

  // ---------------------------------------------------------------- pairing rule

  const NisriaPrograms: set<string> := {"education", "microfund", "rescue"}
  const MaishaPrograms: set<string> := {"vocational"}

  /** The pairing checked by `ProgramSerializer.validate` once a name and a
      division are known. */
  predicate ProgramRule(name: string, division: string) {
    !(name in NisriaPrograms && division != "nisria") &&
    !(name in MaishaPrograms && division != "maisha")
  }

  /** A stored program: its name and the name of its division, if any. */
  datatype ProgramRow = ProgramRow(name: string, division: Option<string>)

  /** `ProgramSerializer.validate`: the name and division come from the
      request or, when absent there, from the instance being updated;
      with either still missing (or an empty name) the data passes as it
      is. */
  function ValidateProgram(dataName: Option<string>, dataDivision: Option<string>, instance: Option<ProgramRow>): (ok: bool)
    // A request that sends both fields is judged by them alone: education,
    // microfund and rescue need nisria, vocational needs maisha.
    ensures dataName.Some? && dataName.value != "" && dataDivision.Some? ==>
      (ok <==> ProgramRule(dataName.value, dataDivision.value))
    ensures dataName.Some? && dataName.value in NisriaPrograms && dataDivision.Some? ==>
      (ok <==> dataDivision.value == "nisria")
    ensures dataName == Some("vocational") && dataDivision.Some? ==> (ok <==> dataDivision.value == "maisha")
    ensures dataName.Some? && dataName.value !in NisriaPrograms + MaishaPrograms ==> ok
    // An update that leaves out a field takes it from the stored program.
    ensures dataName.None? && instance.Some? && instance.value.name != "" && dataDivision.Some? ==>
      (ok <==> ProgramRule(instance.value.name, dataDivision.value))
    ensures (dataName.None? && instance.Some? && instance.value.name != "" && dataDivision.None? &&
      instance.value.division.Some?) ==> (ok <==> ProgramRule(instance.value.name, instance.value.division.value))
    ensures (dataName.Some? && dataName.value != "" && dataDivision.None? && instance.Some? &&
      instance.value.division.Some?) ==> (ok <==> ProgramRule(dataName.value, instance.value.division.value))
    // With a name or a division still unknown, or an empty name, the data passes.
    ensures dataName.None? && instance.None? ==> ok
    ensures dataName == Some("") ==> ok
    ensures dataDivision.None? && (instance.None? || instance.value.division.None?) ==> ok
  {
    var name := match dataName
      case Some(n) => Some(n)
      case None => if instance.Some? then Some(instance.value.name) else None;
    var division := match dataDivision
      case Some(d) => Some(d)
      case None => if instance.Some? then instance.value.division else None;
    if name.None? || name.value == "" || division.None? then true
    else ProgramRule(name.value, division.value)
  }

  /** On creation with both fields given, education, microfund and rescue
      need the nisria division, vocational needs maisha, and any other name
      passes under either. */
  lemma PairingByName(name: string, division: string)
    ensures name in NisriaPrograms ==> (ValidateProgram(Some(name), Some(division), None) <==> division == "nisria")
    ensures name == "vocational" ==> (ValidateProgram(Some(name), Some(division), None) <==> division == "maisha")
    ensures name !in NisriaPrograms && name != "vocational" && division in {"nisria", "maisha"} ==>
      ValidateProgram(Some(name), Some(division), None)
  {
  }

  /** On an update that sends neither field the stored pairing is checked
      again; an update that moves a program keeps its stored name. */
  lemma UpdateUsesInstance(row: ProgramRow, dataDivision: Option<string>)
    requires row.name != "" && row.division.Some?
    ensures ValidateProgram(None, None, Some(row)) == ProgramRule(row.name, row.division.value)
    ensures dataDivision.Some? ==> ValidateProgram(None, dataDivision, Some(row)) == ProgramRule(row.name, dataDivision.value)
  {
  }

  // ---------------------------------------------------------------- eligible users

  /** The `leads` queryset: management leads and super admins. */
  predicate EligibleLead(role: Role) {
    role == ManagementLead || role == SuperAdmin
  }

  /** The `maintainers` queryset: grant officers, management leads, admins
      and super admins. */
  predicate EligibleMaintainer(role: Role) {
    role == GrantOfficer || role == ManagementLead || role == Admin || role == SuperAdmin
  }

  /** A list of users passes a related field iff every one is in its
      queryset; the empty list is allowed. Each user is looked up in turn. */
  function AcceptUsers(users: seq<User>, eligible: Role -> bool): (ok: bool)
    ensures ok <==> forall i :: 0 <= i < |users| ==> eligible(users[i].role)
  {
    if users == [] then true
    else eligible(users[0].role) && AcceptUsers(users[1..], eligible)
  }

  /** A list made of two parts passes iff each part does. */
  lemma AcceptUsersAppend(a: seq<User>, b: seq<User>, eligible: Role -> bool)
    ensures AcceptUsers(a + b, eligible) == (AcceptUsers(a, eligible) && AcceptUsers(b, eligible))
  {
    assert forall i :: 0 <= i < |a| ==> (a + b)[i] == a[i];
    assert forall i :: 0 <= i < |b| ==> (a + b)[|a| + i] == b[i];
  }

  /** A more permissive queryset accepts every list a stricter one does. */
  lemma AcceptUsersMonotone(users: seq<User>, strict: Role -> bool, lax: Role -> bool)
    requires forall r :: strict(r) ==> lax(r)
    ensures AcceptUsers(users, strict) ==> AcceptUsers(users, lax)
  {
  }

  /** Every lead is eligible as a maintainer, and every role of the user
      model is eligible as a maintainer; admins and grant officers cannot
      lead. */
  lemma EligibleRoles(users: seq<User>)
    ensures forall r: Role :: EligibleLead(r) ==> EligibleMaintainer(r)
    ensures forall r: Role :: EligibleMaintainer(r)
    ensures !EligibleLead(Admin) && !EligibleLead(GrantOfficer)
    ensures AcceptUsers(users, EligibleLead) ==> AcceptUsers(users, EligibleMaintainer)
  {
  }

  // ---------------------------------------------------------------- microfund serializer

  /** `MicroFundProgramDetailSerializer` as far as `chama_group` goes. */
  class MicroFundSerializer {
    var chamaGroupRequired: bool

    /** `chama_group` is required exactly when no instance is bound, that
        is when creating. */
    constructor(hasInstance: bool)
      ensures chamaGroupRequired == !hasInstance
    {
      if !hasInstance {
        chamaGroupRequired := true;
      } else {
        chamaGroupRequired := false;
      }
    }

    /** Whether the request passes the `chama_group` requirement: a
        non-partial request without the field fails only when it is
        required. */
    method MissingFieldCheck(sendsChamaGroup: bool, partial: bool) returns (ok: bool)
      ensures ok <==> sendsChamaGroup || partial || !chamaGroupRequired
    {
      ok := sendsChamaGroup || partial || !chamaGroupRequired;
    }
  }

  /** Binding the serializer, with or without an instance, and validating a
      request: `chama_group` may be left out only when updating an existing
      record or in a partial request. */
  method ValidateChamaGroup(hasInstance: bool, sendsChamaGroup: bool, partial: bool) returns (ok: bool)
    ensures ok <==> sendsChamaGroup || partial || hasInstance
    ensures !hasInstance && !partial ==> (ok <==> sendsChamaGroup)
  {
    var serializer := new MicroFundSerializer(hasInstance);
    ok := serializer.MissingFieldCheck(sendsChamaGroup, partial);
  }

  // ---------------------------------------------------------------- URL resolution

  /** The model each metadata entry lists. */
  datatype DetailKind = EducationDetail | MicroFundDetail | RescueDetail | TraineeDetail | TrainerDetail

  /** One entry of PROGRAM_DETAIL_METADATA. */
  datatype DetailMeta = DetailMeta(
    kind: DetailKind,
    allowedDivisionUrls: seq<string>,
    dbDivisionMap: map<string, string>,
    searchFields: seq<string>,
    programName: string)

  /** PROGRAM_DETAIL_METADATA, keyed by the lower-case program type. */
  function ProgramDetailMetadata(programType: string): Option<DetailMeta> {
    if programType == "education" then
      Some(DetailMeta(EducationDetail, ["nisria"], map["nisria" := "nisria"],
        ["student_name", "education_level", "student_location", "school_associated"], "education"))
    else if programType == "microfund" then
      Some(DetailMeta(MicroFundDetail, ["nisria"], map["nisria" := "nisria"],
        ["person_name", "chama_group", "location"], "microfund"))
    else if programType == "rescue" then
      Some(DetailMeta(RescueDetail, ["nisria"], map["nisria" := "nisria"],
        ["child_name", "place_found", "notes"], "rescue"))
    else if programType == "vocational" then
      Some(DetailMeta(TraineeDetail, ["maisha"], map["maisha" := "maisha"],
        ["trainee_name", "trainee_association", "trainee_email"], "vocational"))
    else if programType == "vocational-trainer" then
      Some(DetailMeta(TrainerDetail, ["maisha"], map["maisha" := "maisha"],
        ["trainer_name", "trainer_association", "trainer_email"], "vocational"))
    else None
  }

  /** The division each program type lives under. */
  function HomeDivision(programType: string): string {
    if programType in {"vocational", "vocational-trainer"} then "maisha" else "nisria"
  }

  /** The stored program a program type stands for. */
  function ProgramNameFor(programType: string): string {
    if programType == "vocational-trainer" then "vocational" else programType
  }

  /** A program is found by its division's name and its own name. */
  datatype ProgramKey = ProgramKey(division: string, name: string)

  /** The stored divisions (by name), programs, and trainers (by primary
      key, with the program they belong to). */
  datatype Catalogue = Catalogue(divisions: set<string>, programs: set<ProgramKey>, trainers: map<nat, ProgramKey>)

  datatype Resolution = Resolved(meta: DetailMeta, program: ProgramKey) | Unresolved

  /** `_get_program_detail_meta_and_program`; every failure is not-found. */
  function ResolveProgramDetail(cat: Catalogue, divisionUrl: string, programTypeUrl: string): (r: Resolution)
    ensures
      var pt, du := Lower(programTypeUrl), Lower(divisionUrl);
      var key := ProgramKey(HomeDivision(pt), ProgramNameFor(pt));
      r.Resolved? <==>
        ProgramDetailMetadata(pt).Some? && du == HomeDivision(pt) &&
        HomeDivision(pt) in cat.divisions && key in cat.programs
    ensures r.Resolved? ==>
      r.meta == ProgramDetailMetadata(Lower(programTypeUrl)).value &&
      r.program == ProgramKey(Lower(divisionUrl), r.meta.programName) && r.program in cat.programs &&
      r.meta.programName == ProgramNameFor(Lower(programTypeUrl))
  {
    var pt := Lower(programTypeUrl);
    match ProgramDetailMetadata(pt)
    case None => Unresolved
    case Some(meta) =>
      var du := Lower(divisionUrl);
      if du !in meta.allowedDivisionUrls then Unresolved
      else if du !in meta.dbDivisionMap || meta.dbDivisionMap[du] == "" then Unresolved
      else
        var db := meta.dbDivisionMap[du];
        if db !in cat.divisions then Unresolved
        else
          var key := ProgramKey(db, meta.programName);
          if key in cat.programs then Resolved(meta, key) else Unresolved
  }

  /** Both URL segments are matched without regard to letter case. */
  lemma {:induction false} ResolveIgnoresCase(cat: Catalogue, divisionUrl: string, programTypeUrl: string)
    ensures ResolveProgramDetail(cat, divisionUrl, programTypeUrl) ==
            ResolveProgramDetail(cat, Lower(divisionUrl), Lower(programTypeUrl))
  {
    LowerIdempotent(divisionUrl);
    LowerIdempotent(programTypeUrl);
  }

  /** Both vocational types resolve to the program named vocational, under
      maisha; the other three resolve only under nisria; an unknown type
      never resolves. */
  lemma ResolutionCases(cat: Catalogue, divisionUrl: string, programTypeUrl: string)
    ensures var r := ResolveProgramDetail(cat, divisionUrl, programTypeUrl);
      (Lower(programTypeUrl) in {"vocational", "vocational-trainer"} && r.Resolved? ==>
        r.program == ProgramKey("maisha", "vocational")) &&
      (Lower(programTypeUrl) in NisriaPrograms && r.Resolved? ==> r.program.division == "nisria") &&
      (Lower(programTypeUrl) !in NisriaPrograms + {"vocational", "vocational-trainer"} ==> r.Unresolved?)
  {
  }

  // ---------------------------------------------------------------- search

  /** A stored detail record: its text fields, null ones as `None`. */
  type Row = map<string, Option<string>>

  /** The query tree built from `Q` objects: the empty `Q()`, one
      `field__icontains` lookup, or a disjunction. */
  datatype Query = EmptyQuery | FieldContains(field: string, term: string) | AnyOf(left: Query, right: Query)

  /** `q1 | q2`: an empty side drops out, as Django combines `Q` objects. */
  function Or(q1: Query, q2: Query): Query {
    if q1 == EmptyQuery then q2 else if q2 == EmptyQuery then q1 else AnyOf(q1, q2)
  }

  /** Whether a row passes a `filter` with the query; a null field contains
      nothing. */
  predicate Matches(q: Query, row: Row) {
    match q
    case EmptyQuery => true
    case FieldContains(f, t) => f in row && row[f].Some? && ContainsIgnoringCase(row[f].value, t)
    case AnyOf(a, b) => Matches(a, row) || Matches(b, row)
  }

  /** The field holds text that contains the term, in any letter case. */
  predicate FieldHit(row: Row, field: string, term: string) {
    field in row && row[field].Some? && ContainsIgnoringCase(row[field].value, term)
  }

  /** At least one configured field contains the term. */
  predicate SearchHit(row: Row, fields: seq<string>, term: string) {
    exists i :: 0 <= i < |fields| && FieldHit(row, fields[i], term)
  }

  /** The search loop of the listing helpers: one `icontains` lookup per
      configured field, joined by `|`. */
  method BuildSearchQuery(fields: seq<string>, term: string) returns (q: Query)
    requires |fields| > 0
    ensures forall row :: Matches(q, row) <==> SearchHit(row, fields, term)
  {
    q := EmptyQuery;
    var i := 0;
    while i < |fields|
      invariant 0 <= i <= |fields|
      invariant q == EmptyQuery <==> i == 0
      invariant forall row :: i > 0 ==> (Matches(q, row) <==> exists j :: 0 <= j < i && FieldHit(row, fields[j], term))
    {
      q := Or(q, FieldContains(fields[i], term));
      i := i + 1;
    }
  }

  function SearchFilter(fields: seq<string>, term: string): Row -> bool {
    (row: Row) => SearchHit(row, fields, term)
  }

  /** The search step of `_base_program_detail_list_logic` and
      `_base_trainee_list_logic`: with a non-empty `q` and configured
      fields, keep the rows where some field contains `q`; otherwise keep
      every row. */
  method Search(rows: seq<Row>, fields: seq<string>, q: Option<string>) returns (r: seq<Row>)
    ensures q.None? || q.value == "" || fields == [] ==> r == rows
    ensures q.Some? && q.value != "" && fields != [] ==> r == Seqs.Filter(rows, SearchFilter(fields, q.value))
    ensures forall row :: row in r <==> row in rows && (q.None? || q.value == "" || fields == [] || SearchHit(row, fields, q.value))
  {
    if q.None? || q.value == "" || fields == [] {
      return rows;
    }
    var query := BuildSearchQuery(fields, q.value);
    var keep := (row: Row) => Matches(query, row);
    r := Seqs.Filter(rows, keep);
    Seqs.FilterCongruent(rows, keep, SearchFilter(fields, q.value));
  }

  // ---------------------------------------------------------------- trainees

  /** `_base_trainee_list_logic`: only the vocational type, then the usual
      resolution. */
  function TraineeProgram(cat: Catalogue, divisionUrl: string, programTypeUrl: string): (r: Resolution)
    ensures r.Resolved? <==> Lower(programTypeUrl) == "vocational" && ResolveProgramDetail(cat, divisionUrl, programTypeUrl).Resolved?
    ensures r.Resolved? ==> r.program == ProgramKey("maisha", "vocational") && r.meta.kind == TraineeDetail
  {
    if Lower(programTypeUrl) != "vocational" then Unresolved
    else ResolveProgramDetail(cat, divisionUrl, programTypeUrl)
  }

  /** `vocational_trainee_list_create`: the division named by the lower-case
      segment must exist and be maisha, its vocational program must exist,
      and the trainer must belong to it. */
  function NestedTrainer(cat: Catalogue, divisionName: string, trainerPk: nat): (r: Option<ProgramKey>)
    ensures r.Some? <==>
      Lower(divisionName) == "maisha" && "maisha" in cat.divisions &&
      ProgramKey("maisha", "vocational") in cat.programs &&
      trainerPk in cat.trainers && cat.trainers[trainerPk] == ProgramKey("maisha", "vocational")
    ensures r.Some? ==> r.value == ProgramKey("maisha", "vocational")
  {
    var dn := Lower(divisionName);
    if dn !in cat.divisions then None
    else if dn != "maisha" then None
    else
      var key := ProgramKey(dn, "vocational");
      if key !in cat.programs then None
      else if trainerPk in cat.trainers && cat.trainers[trainerPk] == key then Some(key)
      else None
  }

  /** `vocational_trainee_detail`: the same lookups without the maisha
      check. */
  function TrainerForDetail(cat: Catalogue, divisionName: string, trainerPk: nat): (r: Option<ProgramKey>)
    ensures r.Some? <==>
      Lower(divisionName) in cat.divisions &&
      ProgramKey(Lower(divisionName), "vocational") in cat.programs &&
      trainerPk in cat.trainers && cat.trainers[trainerPk] == ProgramKey(Lower(divisionName), "vocational")
    ensures r.Some? ==> r.value == ProgramKey(Lower(divisionName), "vocational")
  {
    var dn := Lower(divisionName);
    if dn !in cat.divisions then None
    else
      var key := ProgramKey(dn, "vocational");
      if key !in cat.programs then None
      else if trainerPk in cat.trainers && cat.trainers[trainerPk] == key then Some(key)
      else None
  }

  /** Every stored program obeys the pairing rule. */
  predicate PairedCatalogue(cat: Catalogue) {
    forall k :: k in cat.programs ==> ProgramRule(k.name, k.division)
  }

  /** The detail endpoint lacks the maisha check, yet when every stored
      program obeys the pairing rule it finds exactly the trainers the
      nested list finds. */
  lemma TraineeDetailNeedsMaisha(cat: Catalogue, divisionName: string, trainerPk: nat)
    requires PairedCatalogue(cat)
    ensures TrainerForDetail(cat, divisionName, trainerPk) == NestedTrainer(cat, divisionName, trainerPk)
  {
    var key := ProgramKey(Lower(divisionName), "vocational");
    if key in cat.programs {
      assert ProgramRule(key.name, key.division);
    }
  }

  // ---------------------------------------------------------------- pagination

  const DefaultPageSize: nat := 10
  const MaxPageSize: nat := 100

  predicate IsDigits(s: string) {
    forall i :: 0 <= i < |s| ==> IsDigit(s[i])
  }

  /** `StandardResultsSetPagination.get_page_size`: a positive `page_size`
      parameter, capped at 100; anything else gives the default of 10. */
  function PageSize(param: Option<string>): (r: nat)
    ensures 1 <= r <= MaxPageSize
    ensures param.None? ==> r == DefaultPageSize
    ensures param.Some? && |param.value| > 0 && IsDigits(param.value) && ParseDigits(param.value) > 0 ==>
      r == if ParseDigits(param.value) < MaxPageSize then ParseDigits(param.value) else MaxPageSize
    ensures param.Some? && !(|param.value| > 0 && IsDigits(param.value) && ParseDigits(param.value) > 0) ==> r == DefaultPageSize
  {
    match param
    case None => DefaultPageSize
    case Some(s) =>
      if |s| > 0 && IsDigits(s) then
        var n := ParseDigits(s);
        if n == 0 then DefaultPageSize else if n < MaxPageSize then n else MaxPageSize
      else DefaultPageSize
  }

  /** A requested size is honoured up to the cap. */
  lemma PageSizeOfRendered(n: nat)
    ensures PageSize(Some(NatToString(n))) == if n == 0 then DefaultPageSize else if n < MaxPageSize then n else MaxPageSize
  {
    ParseNatToString(n);
  }
}
