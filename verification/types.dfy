/**
 * The shared data model of `src/shared/types.ts`: the closed enumerations of
 * roles, module types and statuses, the three payload schemas, the module and
 * user records, and the two request schemas the API validates its bodies with.
 *
 * A schema is modelled twice: as a typed datatype with a validity predicate
 * (what a value that passed the schema looks like) and as a parser over raw
 * JSON (what the schema does to a request body). Each parser is tied to the
 * typed side by its contract and by a round-trip lemma.
 */
module Types {
  import opened Wrappers
  import opened Json

  // ---------------------------------------------------------------------------
  // Enumerations

  /** `UserRoleSchema`: DRIVER and FIREFIGHTER submit, the other three review. */
  datatype Role = Driver | Firefighter | Sergeant | B3 | Officer

  /** `ModuleTypeSchema`: DEJEM and DEA have no payload schema of their own. */
  datatype ModuleType = Fuel | Checklist | PassAlong | Dejem | Dea

  /** `ModuleStatusSchema`, declared in approval order. */
  datatype Status = AwaitingSergeant | ValidatedSergeant | ReviewedB3 | PublishedOfficers

  function RoleName(r: Role): string
  {
    match r
    case Driver => "ROLE_DRIVER"
    case Firefighter => "ROLE_FIREFIGHTER"
    case Sergeant => "ROLE_SERGEANT"
    case B3 => "ROLE_B3"
    case Officer => "ROLE_OFFICER"
  }

  /** `UserRoleSchema.parse` on a string: exactly the five role names are accepted. */
  function ParseRole(s: string): (r: Option<Role>)
    ensures r.Some? ==> RoleName(r.value) == s
    ensures r.None? ==> forall x :: RoleName(x) != s
  {
    if s == "ROLE_DRIVER" then Some(Driver)
    else if s == "ROLE_FIREFIGHTER" then Some(Firefighter)
    else if s == "ROLE_SERGEANT" then Some(Sergeant)
    else if s == "ROLE_B3" then Some(B3)
    else if s == "ROLE_OFFICER" then Some(Officer)
    else None
  }

  function ModuleTypeName(t: ModuleType): string
  {
    match t
    case Fuel => "FUEL"
    case Checklist => "CHECKLIST"
    case PassAlong => "PASS_ALONG"
    case Dejem => "DEJEM"
    case Dea => "DEA"
  }

  /** `ModuleTypeSchema.parse` on a string. */
  function ParseModuleType(s: string): (r: Option<ModuleType>)
    ensures r.Some? ==> ModuleTypeName(r.value) == s
    ensures r.None? ==> forall x :: ModuleTypeName(x) != s
  {
    if s == "FUEL" then Some(Fuel)
    else if s == "CHECKLIST" then Some(Checklist)
    else if s == "PASS_ALONG" then Some(PassAlong)
    else if s == "DEJEM" then Some(Dejem)
    else if s == "DEA" then Some(Dea)
    else None
  }

  function StatusName(s: Status): string
  {
    match s
    case AwaitingSergeant => "AWAITING_SERGEANT"
    case ValidatedSergeant => "VALIDATED_SERGEANT"
    case ReviewedB3 => "REVIEWED_B3"
    case PublishedOfficers => "PUBLISHED_OFFICERS"
  }

  /** `ModuleStatusSchema.parse` on a string. */
  function ParseStatus(s: string): (r: Option<Status>)
    ensures r.Some? ==> StatusName(r.value) == s
    ensures r.None? ==> forall x :: StatusName(x) != s
  {
    if s == "AWAITING_SERGEANT" then Some(AwaitingSergeant)
    else if s == "VALIDATED_SERGEANT" then Some(ValidatedSergeant)
    else if s == "REVIEWED_B3" then Some(ReviewedB3)
    else if s == "PUBLISHED_OFFICERS" then Some(PublishedOfficers)
    else None
  }

  /** Every enumeration name parses back to the value it names, and to no other. */
  lemma NamesRoundTrip(r: Role, t: ModuleType, s: Status)
    ensures ParseRole(RoleName(r)) == Some(r)
    ensures ParseModuleType(ModuleTypeName(t)) == Some(t)
    ensures ParseStatus(StatusName(s)) == Some(s)
  {
    match r
    case Driver =>
    case Firefighter =>
    case Sergeant =>
    case B3 =>
    case Officer =>
  }

  // ---------------------------------------------------------------------------
  // The order of the statuses

  /** Position of a status in the approval order, 0 for the initial one. */
  function Rank(s: Status): (n: nat)
    ensures n < 4
  {
    match s
    case AwaitingSergeant => 0
    case ValidatedSergeant => 1
    case ReviewedB3 => 2
    case PublishedOfficers => 3
  }

  /** The status at a position of the approval order, if there is one. */
  function StatusAt(n: nat): (r: Option<Status>)
    ensures r.Some? <==> n < 4
    ensures r.Some? ==> Rank(r.value) == n
  {
    if n == 0 then Some(AwaitingSergeant)
    else if n == 1 then Some(ValidatedSergeant)
    else if n == 2 then Some(ReviewedB3)
    else if n == 3 then Some(PublishedOfficers)
    else None
  }

  /** The four statuses form one strict chain: Rank is a bijection onto 0..3. */
  lemma RankIsBijection(s: Status, t: Status)
    ensures StatusAt(Rank(s)) == Some(s)
    ensures Rank(s) == Rank(t) <==> s == t
  {
    match s
    case AwaitingSergeant =>
    case ValidatedSergeant =>
    case ReviewedB3 =>
    case PublishedOfficers =>
  }

  /** The status immediately after `s`; PUBLISHED_OFFICERS is terminal. */
  function Successor(s: Status): (r: Option<Status>)
    ensures r.Some? <==> s != PublishedOfficers
    ensures r.Some? ==> Rank(r.value) == Rank(s) + 1
  {
    StatusAt(Rank(s) + 1)
  }

  // ---------------------------------------------------------------------------
  // Role classes (the role lists of `src/worker/index.ts` and the review page)

  /** The roles the module-creation handler admits. */
  predicate IsCreator(r: Role)
  {
    r == Driver || r == Firefighter
  }

  /** The roles the status-update handler and the review page admit. */
  predicate IsReviewer(r: Role)
  {
    r == Sergeant || r == B3 || r == Officer
  }

  /** Every role is exactly one of creator and reviewer. */
  lemma CreatorsAndReviewersPartitionRoles(r: Role)
    ensures IsCreator(r) != IsReviewer(r)
  {
  }

  // ---------------------------------------------------------------------------
  // Fuel payload (`FuelPayloadSchema`)

  datatype FuelPayload = FuelPayload(
    km: real, litros: real, motorista: string, viatura: string, posto: string, data: string)

  /** km and litros at least zero, driver, vehicle and station non-empty, any date. */
  predicate ValidFuel(p: FuelPayload)
  {
    p.km >= 0.0 && p.litros >= 0.0 && |p.motorista| > 0 && |p.viatura| > 0 && |p.posto| > 0
  }

  /** A fuel payload as the JSON object the form sends. */
  function FuelJson(p: FuelPayload): Value
  {
    Obj(map["km" := Num(p.km), "litros" := Num(p.litros), "motorista" := Str(p.motorista),
            "viatura" := Str(p.viatura), "posto" := Str(p.posto), "data" := Str(p.data)])
  }

  /**
   * `v` is an object whose six fuel fields hold exactly the values of the
   * valid payload `p`; other keys are ignored (an object schema drops them).
   */
  predicate ConformsFuel(v: Value, p: FuelPayload)
  {
    && v.Obj?
    && ValidFuel(p)
    && NumField(v.fields, "km") == Some(p.km)
    && NumField(v.fields, "litros") == Some(p.litros)
    && StrField(v.fields, "motorista") == Some(p.motorista)
    && StrField(v.fields, "viatura") == Some(p.viatura)
    && StrField(v.fields, "posto") == Some(p.posto)
    && StrField(v.fields, "data") == Some(p.data)
  }

  /** `FuelPayloadSchema.safeParse`. */
  function ParseFuel(v: Value): (r: Option<FuelPayload>)
    ensures r.Some? ==> ConformsFuel(v, r.value)
    ensures r.None? ==> forall p :: !ConformsFuel(v, p)
  {
    if !v.Obj? then None
    else
      var o := v.fields;
      var km, litros := NumField(o, "km"), NumField(o, "litros");
      var motorista, viatura := StrField(o, "motorista"), StrField(o, "viatura");
      var posto, data := StrField(o, "posto"), StrField(o, "data");
      if km.Some? && litros.Some? && motorista.Some? && viatura.Some? && posto.Some? && data.Some?
      then
        var p := FuelPayload(km.value, litros.value, motorista.value, viatura.value, posto.value, data.value);
        if ValidFuel(p) then Some(p) else None
      else None
  }

  /** A valid fuel payload survives being sent and validated. */
  lemma FuelRoundTrip(p: FuelPayload)
    requires ValidFuel(p)
    ensures ParseFuel(FuelJson(p)) == Some(p)
  {
    assert ConformsFuel(FuelJson(p), p);
  }

  // ---------------------------------------------------------------------------
  // Checklist payload (`ChecklistPayloadSchema`)

  datatype ChecklistPayload = ChecklistPayload(
    viatura: string,
    freios: bool, luzes: bool, pneus: bool, combustivel: bool,
    oleo: bool, agua: bool, equipamentos: bool, limpeza: bool,
    observacoes: Option<string>, data: string)

  /** The vehicle is non-empty; the eight flags and the notes carry no constraint. */
  predicate ValidChecklist(p: ChecklistPayload)
  {
    |p.viatura| > 0
  }

  /** A checklist as a JSON object; absent notes leave the key out. */
  function ChecklistJson(p: ChecklistPayload): Value
  {
    var notes: map<string, Value> :=
      if p.observacoes.Some? then map["observacoes" := Str(p.observacoes.value)] else map[];
    Obj(notes["viatura" := Str(p.viatura)]["freios" := Bool(p.freios)]["luzes" := Bool(p.luzes)]
      ["pneus" := Bool(p.pneus)]["combustivel" := Bool(p.combustivel)]["oleo" := Bool(p.oleo)]
      ["agua" := Bool(p.agua)]["equipamentos" := Bool(p.equipamentos)]["limpeza" := Bool(p.limpeza)]
      ["data" := Str(p.data)])
  }

  /** `v` is an object whose checklist fields hold exactly the values of the valid `p`. */
  predicate ConformsChecklist(v: Value, p: ChecklistPayload)
  {
    && v.Obj?
    && ValidChecklist(p)
    && StrField(v.fields, "viatura") == Some(p.viatura)
    && BoolField(v.fields, "freios") == Some(p.freios)
    && BoolField(v.fields, "luzes") == Some(p.luzes)
    && BoolField(v.fields, "pneus") == Some(p.pneus)
    && BoolField(v.fields, "combustivel") == Some(p.combustivel)
    && BoolField(v.fields, "oleo") == Some(p.oleo)
    && BoolField(v.fields, "agua") == Some(p.agua)
    && BoolField(v.fields, "equipamentos") == Some(p.equipamentos)
    && BoolField(v.fields, "limpeza") == Some(p.limpeza)
    && OptionalStrField(v.fields, "observacoes") == Some(p.observacoes)
    && StrField(v.fields, "data") == Some(p.data)
  }

  /** `ChecklistPayloadSchema.safeParse`; an absent `observacoes` is accepted. */
  function ParseChecklist(v: Value): (r: Option<ChecklistPayload>)
    ensures r.Some? ==> ConformsChecklist(v, r.value)
    ensures r.None? ==> forall p :: !ConformsChecklist(v, p)
  {
    if !v.Obj? then None
    else
      var o := v.fields;
      var viatura, data := StrField(o, "viatura"), StrField(o, "data");
      var freios, luzes := BoolField(o, "freios"), BoolField(o, "luzes");
      var pneus, combustivel := BoolField(o, "pneus"), BoolField(o, "combustivel");
      var oleo, agua := BoolField(o, "oleo"), BoolField(o, "agua");
      var equipamentos, limpeza := BoolField(o, "equipamentos"), BoolField(o, "limpeza");
      var observacoes := OptionalStrField(o, "observacoes");
      if viatura.Some? && data.Some? && freios.Some? && luzes.Some? && pneus.Some?
        && combustivel.Some? && oleo.Some? && agua.Some? && equipamentos.Some? && limpeza.Some?
        && observacoes.Some?
      then
        var p := ChecklistPayload(viatura.value, freios.value, luzes.value, pneus.value,
          combustivel.value, oleo.value, agua.value, equipamentos.value, limpeza.value,
          observacoes.value, data.value);
        if ValidChecklist(p) then Some(p) else None
      else None
  }

  /** The first four flags of a sent checklist read back as sent. */
  lemma ChecklistJsonFlagsA(p: ChecklistPayload)
    ensures var o := ChecklistJson(p).fields;
      && BoolField(o, "freios") == Some(p.freios) && BoolField(o, "luzes") == Some(p.luzes)
      && BoolField(o, "pneus") == Some(p.pneus) && BoolField(o, "combustivel") == Some(p.combustivel)
  {
  }

  /** The last four flags of a sent checklist read back as sent. */
  lemma ChecklistJsonFlagsB(p: ChecklistPayload)
    ensures var o := ChecklistJson(p).fields;
      && BoolField(o, "oleo") == Some(p.oleo) && BoolField(o, "agua") == Some(p.agua)
      && BoolField(o, "equipamentos") == Some(p.equipamentos) && BoolField(o, "limpeza") == Some(p.limpeza)
  {
  }

  /** The text fields of a sent checklist read back as sent. */
  lemma ChecklistJsonTexts(p: ChecklistPayload)
    ensures var o := ChecklistJson(p).fields;
      && StrField(o, "viatura") == Some(p.viatura) && StrField(o, "data") == Some(p.data)
      && OptionalStrField(o, "observacoes") == Some(p.observacoes)
  {
  }

  lemma ChecklistRoundTrip(p: ChecklistPayload)
    requires ValidChecklist(p)
    ensures ParseChecklist(ChecklistJson(p)) == Some(p)
  {
    ChecklistJsonFlagsA(p);
    ChecklistJsonFlagsB(p);
    ChecklistJsonTexts(p);
    assert ConformsChecklist(ChecklistJson(p), p);
  }

  // ---------------------------------------------------------------------------
  // Pass-along payload (`PassAlongPayloadSchema`)

  datatype PassAlongPayload = PassAlongPayload(
    turnoAnterior: string, turnoAtual: string,
    responsavelAnterior: string, responsavelAtual: string,
    ocorrencias: string, pendencias: string, observacoes: string, data: string)

  /** The two shifts and the two responsible persons are non-empty; the narratives may be empty. */
  predicate ValidPassAlong(p: PassAlongPayload)
  {
    |p.turnoAnterior| > 0 && |p.turnoAtual| > 0
    && |p.responsavelAnterior| > 0 && |p.responsavelAtual| > 0
  }

  function PassAlongJson(p: PassAlongPayload): Value
  {
    Obj(map["turnoAnterior" := Str(p.turnoAnterior), "turnoAtual" := Str(p.turnoAtual),
      "responsavelAnterior" := Str(p.responsavelAnterior), "responsavelAtual" := Str(p.responsavelAtual),
      "ocorrencias" := Str(p.ocorrencias), "pendencias" := Str(p.pendencias),
      "observacoes" := Str(p.observacoes), "data" := Str(p.data)])
  }

  predicate ConformsPassAlong(v: Value, p: PassAlongPayload)
  {
    && v.Obj?
    && ValidPassAlong(p)
    && StrField(v.fields, "turnoAnterior") == Some(p.turnoAnterior)
    && StrField(v.fields, "turnoAtual") == Some(p.turnoAtual)
    && StrField(v.fields, "responsavelAnterior") == Some(p.responsavelAnterior)
    && StrField(v.fields, "responsavelAtual") == Some(p.responsavelAtual)
    && StrField(v.fields, "ocorrencias") == Some(p.ocorrencias)
    && StrField(v.fields, "pendencias") == Some(p.pendencias)
    && StrField(v.fields, "observacoes") == Some(p.observacoes)
    && StrField(v.fields, "data") == Some(p.data)
  }

  /** `PassAlongPayloadSchema.safeParse`. */
  function ParsePassAlong(v: Value): (r: Option<PassAlongPayload>)
    ensures r.Some? ==> ConformsPassAlong(v, r.value)
    ensures r.None? ==> forall p :: !ConformsPassAlong(v, p)
  {
    if !v.Obj? then None
    else
      var o := v.fields;
      var turnoAnterior, turnoAtual := StrField(o, "turnoAnterior"), StrField(o, "turnoAtual");
      var responsavelAnterior := StrField(o, "responsavelAnterior");
      var responsavelAtual := StrField(o, "responsavelAtual");
      var ocorrencias, pendencias := StrField(o, "ocorrencias"), StrField(o, "pendencias");
      var observacoes, data := StrField(o, "observacoes"), StrField(o, "data");
      if turnoAnterior.Some? && turnoAtual.Some? && responsavelAnterior.Some?
        && responsavelAtual.Some? && ocorrencias.Some? && pendencias.Some?
        && observacoes.Some? && data.Some?
      then
        var p := PassAlongPayload(turnoAnterior.value, turnoAtual.value, responsavelAnterior.value,
          responsavelAtual.value, ocorrencias.value, pendencias.value, observacoes.value, data.value);
        if ValidPassAlong(p) then Some(p) else None
      else None
  }

  lemma PassAlongRoundTrip(p: PassAlongPayload)
    requires ValidPassAlong(p)
    ensures ParsePassAlong(PassAlongJson(p)) == Some(p)
  {
    assert ConformsPassAlong(PassAlongJson(p), p);
  }

  // ---------------------------------------------------------------------------
  // The payload union and the create request (`CreateModuleSchema`)

  datatype Payload =
    | FuelData(fuel: FuelPayload)
    | ChecklistData(checklist: ChecklistPayload)
    | PassAlongData(passAlong: PassAlongPayload)

  predicate ValidPayload(p: Payload)
  {
    match p
    case FuelData(f) => ValidFuel(f)
    case ChecklistData(c) => ValidChecklist(c)
    case PassAlongData(a) => ValidPassAlong(a)
  }

  function PayloadJson(p: Payload): Value
  {
    match p
    case FuelData(f) => FuelJson(f)
    case ChecklistData(c) => ChecklistJson(c)
    case PassAlongData(a) => PassAlongJson(a)
  }

  predicate Conforms(v: Value, p: Payload)
  {
    match p
    case FuelData(f) => ConformsFuel(v, f)
    case ChecklistData(c) => ConformsChecklist(v, c)
    case PassAlongData(a) => ConformsPassAlong(v, a)
  }

  /**
   * The payload member of `CreateModuleSchema`: a union of the three schemas,
   * tried in order, the first that accepts deciding the result.
   */
  function ParsePayload(v: Value): (r: Option<Payload>)
    ensures r.Some? ==> Conforms(v, r.value) && ValidPayload(r.value)
    ensures r.None? ==> forall p :: !Conforms(v, p)
    ensures r.Some? && !r.value.FuelData? ==> forall f :: !ConformsFuel(v, f)
    ensures r.Some? && r.value.PassAlongData? ==> forall c :: !ConformsChecklist(v, c)
  {
    match ParseFuel(v)
    case Some(f) => Some(FuelData(f))
    case None =>
      match ParseChecklist(v)
      case Some(c) => Some(ChecklistData(c))
      case None =>
        match ParsePassAlong(v)
        case Some(a) => Some(PassAlongData(a))
        case None => None
  }

  /**
   * The three schemas have pairwise different required keys, so the payload of
   * one kind never passes as another: a valid payload parses back to itself.
   */
  lemma PayloadRoundTrip(p: Payload)
    requires ValidPayload(p)
    ensures ParsePayload(PayloadJson(p)) == Some(p)
  {
    match p
    case FuelData(f) =>
      FuelRoundTrip(f);
    case ChecklistData(c) =>
      assert "km" !in ChecklistJson(c).fields;
      ChecklistRoundTrip(c);
    case PassAlongData(a) =>
      assert "km" !in PassAlongJson(a).fields;
      assert "freios" !in PassAlongJson(a).fields;
      PassAlongRoundTrip(a);
  }

  /** An object that satisfies the fuel schema is read as fuel, whatever else it carries. */
  lemma UnionPrefersFuel(v: Value, f: FuelPayload)
    requires ConformsFuel(v, f)
    ensures ParsePayload(v) == Some(FuelData(f))
  {
  }

  datatype CreateRequest = CreateRequest(moduleType: ModuleType, payload: Payload)

  /** The body a client posts to create a module. */
  function CreateBody(req: CreateRequest): Value
  {
    Obj(map["type" := Str(ModuleTypeName(req.moduleType)), "payload" := PayloadJson(req.payload)])
  }

  /**
   * `CreateModuleSchema.safeParse`: accepted exactly when the type is a known
   * name and one of the three schemas accepts the payload, extra keys in
   * either object ignored. The type does not select the schema; the payload is
   * read by the union, so the first schema in its order that accepts decides.
   */
  function ParseCreate(body: Value): (r: Option<CreateRequest>)
    ensures r.Some? ==> ValidPayload(r.value.payload)
    ensures r.Some? ==>
      (body.Obj? && "type" in body.fields && "payload" in body.fields
       && body.fields["type"] == Str(ModuleTypeName(r.value.moduleType))
       && Conforms(body.fields["payload"], r.value.payload))
    ensures r.Some? ==> r.value.payload == ParsePayload(body.fields["payload"]).value
    ensures r.None? ==>
      !(body.Obj? && "type" in body.fields && "payload" in body.fields
        && (exists mt :: body.fields["type"] == Str(ModuleTypeName(mt)))
        && (exists p :: Conforms(body.fields["payload"], p)))
  {
    if body.Obj? && "type" in body.fields && body.fields["type"].Str?
      && "payload" in body.fields
    then
      match (ParseModuleType(body.fields["type"].s), ParsePayload(body.fields["payload"]))
      case (Some(t), Some(p)) => Some(CreateRequest(t, p))
      case _ => None
    else None
  }

  /**
   * Any valid payload is accepted under any of the five types, DEJEM and DEA
   * included, and comes back unchanged.
   */
  lemma CreateRoundTrip(req: CreateRequest)
    requires ValidPayload(req.payload)
    ensures ParseCreate(CreateBody(req)) == Some(req)
  {
    PayloadRoundTrip(req.payload);
    NamesRoundTrip(Driver, req.moduleType, AwaitingSergeant);
  }

  /** A FUEL request carrying a checklist passes validation. */
  lemma FuelTypeAcceptsChecklistPayload(c: ChecklistPayload)
    requires ValidChecklist(c)
    ensures ParseCreate(CreateBody(CreateRequest(Fuel, ChecklistData(c)))) ==
      Some(CreateRequest(Fuel, ChecklistData(c)))
  {
    CreateRoundTrip(CreateRequest(Fuel, ChecklistData(c)));
  }

  // ---------------------------------------------------------------------------
  // The other two request bodies

  /** The body of a status update (`UpdateModuleStatusSchema`). */
  function StatusBody(s: Status): Value
  {
    Obj(map["status" := Str(StatusName(s))])
  }

  /** `UpdateModuleStatusSchema.safeParse`: any of the four statuses, the initial one included. */
  function ParseStatusBody(v: Value): (r: Option<Status>)
    ensures r.Some? ==> v.Obj? && "status" in v.fields && v.fields["status"] == Str(StatusName(r.value))
    ensures r.None? ==> forall s :: !(v.Obj? && "status" in v.fields && v.fields["status"] == Str(StatusName(s)))
  {
    if v.Obj? && "status" in v.fields && v.fields["status"].Str?
    then ParseStatus(v.fields["status"].s)
    else None
  }

  lemma StatusBodyRoundTrip(s: Status)
    ensures ParseStatusBody(StatusBody(s)) == Some(s)
  {
    NamesRoundTrip(Driver, Fuel, s);
  }

  /** The body of a role change: a bare JSON string validated by `UserRoleSchema`. */
  function RoleBody(r: Role): Value
  {
    Str(RoleName(r))
  }

  function ParseRoleBody(v: Value): (r: Option<Role>)
    ensures r.Some? ==> v == Str(RoleName(r.value))
    ensures r.None? ==> forall x :: v != Str(RoleName(x))
  {
    if v.Str? then ParseRole(v.s) else None
  }

  lemma RoleBodyRoundTrip(r: Role)
    ensures ParseRoleBody(RoleBody(r)) == Some(r)
  {
    NamesRoundTrip(r, Fuel, AwaitingSergeant);
  }

  // ---------------------------------------------------------------------------
  // Stored records (`UserSchema`, `ModuleSchema`)

  /** Timestamps are opaque; only their order matters (the module list sorts by it). */
  type Timestamp = nat

  datatype UserProfile = UserProfile(
    id: string, email: string, name: Option<string>, role: Role,
    createdAt: Timestamp, updatedAt: Timestamp)

  /** The three nullable attribution columns of a module. */
  datatype Attribution = ValidatedBy | ReviewedBy | PublishedBy

  /**
   * A row of the modules table. `createdBy` is always present; the three
   * attribution columns may be null. The payload is kept as the validated
   * value rather than its JSON text.
   */
  datatype ModuleRow = ModuleRow(
    id: int, moduleType: ModuleType, status: Status, payload: Payload,
    createdBy: string,
    validatedBy: Option<string>, reviewedBy: Option<string>, publishedBy: Option<string>,
    createdAt: Timestamp, updatedAt: Timestamp)

  /** The value of one attribution column. */
  function AttributedTo(m: ModuleRow, f: Attribution): Option<string>
  {
    match f
    case ValidatedBy => m.validatedBy
    case ReviewedBy => m.reviewedBy
    case PublishedBy => m.publishedBy
  }

  /** `m` with one attribution column set to `actor`. */
  function WithAttribution(m: ModuleRow, f: Attribution, actor: string): (r: ModuleRow)
    ensures AttributedTo(r, f) == Some(actor)
    ensures forall g :: g != f ==> AttributedTo(r, g) == AttributedTo(m, g)
    ensures r.(validatedBy := m.validatedBy, reviewedBy := m.reviewedBy, publishedBy := m.publishedBy) == m
  {
    match f
    case ValidatedBy => m.(validatedBy := Some(actor))
    case ReviewedBy => m.(reviewedBy := Some(actor))
    case PublishedBy => m.(publishedBy := Some(actor))
  }
}
