/**
 * Compilation of a definition's node-local attributes into the policy sent downstream.
 * The attributes are split into common ones (no sensor URLs) and specific ones; one
 * handler runs over each group in turn, updating a shared property bag and the captured
 * policy fields, and a policy record is built from what it leaves behind.
 */
module PolicyGen {
  import opened Wrappers
  import opened Definitions
  import Conversion

  /** A property bag; the values are kept in their formatted (string) form. */
  type Properties = map<string, string>

  datatype Meter = Meter(tokens: uint64, perTimeUnit: string, notificationIntervalS: int)

  const NoMeter: Meter := Meter(0, "", 0)

  /** The attribute kinds the handler distinguishes; any other kind is only logged. */
  datatype AttributeKind =
    | ComputeAttributes(cpus: string, ram: string)
    | ArchitectureAttributes(architecture: string)
    | HAAttributes(partners: seq<string>)
    | MeteringAttributes(tokens: uint64, perTimeUnit: string, notificationIntervalS: int)
    | CounterPartyPropertyAttributes(expression: Properties)
    | PropertyAttributes(mappings: Properties)
    | AgreementProtocolAttributes(protocols: seq<string>)
    | OtherAttributes(attributeType: string)

  /** An attribute; an empty `sensorUrls` makes it common to every microservice. */
  datatype Attribute = Attribute(sensorUrls: seq<string>, kind: AttributeKind)

  datatype Tag = Compute | Architecture | HA | Metering | CounterParty | Property | AgreementProtocol | Other

  function TagOf(k: AttributeKind): Tag {
    match k
    case ComputeAttributes(_, _) => Compute
    case ArchitectureAttributes(_) => Architecture
    case HAAttributes(_) => HA
    case MeteringAttributes(_, _, _) => Metering
    case CounterPartyPropertyAttributes(_) => CounterParty
    case PropertyAttributes(_) => Property
    case AgreementProtocolAttributes(_) => AgreementProtocol
    case OtherAttributes(_) => Other
  }

  /**
   * What the attribute handler updates: the property bag `props` and the variables it
   * captures. `properties` holds the mappings of the last property attribute seen and,
   * like the others, survives from the first pass into the second.
   */
  datatype PolicyState = PolicyState(
    props: Properties,
    policyArch: string,
    haPartner: seq<string>,
    meterPolicy: Meter,
    counterPartyProperties: Properties,
    properties: Properties,
    serviceAgreementProtocols: seq<string>)

  /** The state before any attribute is handled: an empty bag and zero values. */
  const Unset: PolicyState := PolicyState(map[], "", [], NoMeter, map[], map[], [])

  // ---- partition into common and specific attributes ----

  predicate IsCommon(a: Attribute) {
    |a.sensorUrls| == 0
  }

  /** The common attributes, in list order. */
  function CommonOf(attrs: seq<Attribute>): seq<Attribute>
    decreases |attrs|
  {
    if |attrs| == 0 then []
    else CommonOf(attrs[..|attrs| - 1]) + (if IsCommon(attrs[|attrs| - 1]) then [attrs[|attrs| - 1]] else [])
  }

  /** The specific attributes, in list order. */
  function SpecificOf(attrs: seq<Attribute>): seq<Attribute>
    decreases |attrs|
  {
    if |attrs| == 0 then []
    else SpecificOf(attrs[..|attrs| - 1]) + (if IsCommon(attrs[|attrs| - 1]) then [] else [attrs[|attrs| - 1]])
  }

  /** The common group has no sensor URLs, the specific group always has some. */
  lemma {:induction false} PartitionGroups(attrs: seq<Attribute>)
    ensures forall i :: 0 <= i < |CommonOf(attrs)| ==> IsCommon(CommonOf(attrs)[i])
    ensures forall i :: 0 <= i < |SpecificOf(attrs)| ==> !IsCommon(SpecificOf(attrs)[i])
    decreases |attrs|
  {
    if |attrs| > 0 {
      PartitionGroups(attrs[..|attrs| - 1]);
    }
  }

  /** The two groups split the list: every attribute lands in exactly one of them. */
  lemma {:induction false} PartitionSplits(attrs: seq<Attribute>)
    ensures multiset(CommonOf(attrs)) + multiset(SpecificOf(attrs)) == multiset(attrs)
    decreases |attrs|
  {
    if |attrs| > 0 {
      PartitionSplits(attrs[..|attrs| - 1]);
      PartitionStep(attrs);
      MultisetOfInitAndLast(attrs);
    }
  }

  lemma MultisetOfInitAndLast(attrs: seq<Attribute>)
    requires |attrs| > 0
    ensures multiset(attrs) == multiset(attrs[..|attrs| - 1]) + multiset{attrs[|attrs| - 1]}
  {
    assert attrs == attrs[..|attrs| - 1] + [attrs[|attrs| - 1]];
  }

  /** Removing the last attribute removes it from exactly one group. */
  lemma PartitionStep(attrs: seq<Attribute>)
    requires |attrs| > 0
    ensures var init, last := attrs[..|attrs| - 1], attrs[|attrs| - 1];
      multiset(CommonOf(attrs)) + multiset(SpecificOf(attrs))
      == multiset(CommonOf(init)) + multiset(SpecificOf(init)) + multiset{last}
  {
    var init, last := attrs[..|attrs| - 1], attrs[|attrs| - 1];
    if IsCommon(last) {
      assert CommonOf(attrs) == CommonOf(init) + [last];
      assert SpecificOf(attrs) == SpecificOf(init) + [];
    } else {
      assert CommonOf(attrs) == CommonOf(init) + [];
      assert SpecificOf(attrs) == SpecificOf(init) + [last];
    }
  }

  /** Each group keeps list order: splitting a list splits the common group the same way. */
  lemma {:induction false} CommonKeepsOrder(front: seq<Attribute>, back: seq<Attribute>)
    ensures CommonOf(front + back) == CommonOf(front) + CommonOf(back)
    decreases |back|
  {
    if |back| == 0 {
      assert front + back == front;
    } else {
      var init := back[..|back| - 1];
      assert (front + back)[..|front + back| - 1] == front + init;
      CommonKeepsOrder(front, init);
    }
  }

  /** The same for the specific group. */
  lemma {:induction false} SpecificKeepsOrder(front: seq<Attribute>, back: seq<Attribute>)
    ensures SpecificOf(front + back) == SpecificOf(front) + SpecificOf(back)
    decreases |back|
  {
    if |back| == 0 {
      assert front + back == front;
    } else {
      var init := back[..|back| - 1];
      assert (front + back)[..|front + back| - 1] == front + init;
      SpecificKeepsOrder(front, init);
    }
  }

  /** The loop that appends each attribute to the group it belongs to. */
  method PartitionAttributes(attrs: seq<Attribute>) returns (common: seq<Attribute>, specific: seq<Attribute>)
    ensures common == CommonOf(attrs) && specific == SpecificOf(attrs)
  {
    common, specific := [], [];
    for i := 0 to |attrs|
      invariant common == CommonOf(attrs[..i]) && specific == SpecificOf(attrs[..i])
    {
      assert attrs[..i + 1][..i] == attrs[..i];
      if |attrs[i].sensorUrls| == 0 {
        common := common + [attrs[i]];
      } else {
        specific := specific + [attrs[i]];
      }
    }
    assert attrs[..|attrs|] == attrs;
  }

  // ---- the attribute handler ----

  /** The effect of one attribute on the handler's state. */
  function Apply(st: PolicyState, k: AttributeKind): PolicyState {
    match k
    case ComputeAttributes(cpus, ram) => st.(props := st.props["cpus" := cpus]["ram" := ram])
    case ArchitectureAttributes(arch) => st.(policyArch := arch)
    case HAAttributes(partners) => st.(haPartner := partners)
    case MeteringAttributes(tokens, unit, interval) => st.(meterPolicy := Meter(tokens, unit, interval))
    case CounterPartyPropertyAttributes(expression) => st.(counterPartyProperties := expression)
    case PropertyAttributes(mappings) => st.(properties := mappings)
    case AgreementProtocolAttributes(protocols) => st.(serviceAgreementProtocols := protocols)
    case OtherAttributes(_) => st
  }

  /** The attributes applied one after another, in list order. */
  function ApplyAll(st: PolicyState, attrs: seq<Attribute>): PolicyState
    decreases |attrs|
  {
    if |attrs| == 0 then st else Apply(ApplyAll(st, attrs[..|attrs| - 1]), attrs[|attrs| - 1].kind)
  }

  /** The last property mappings seen are written into the bag, key by key. */
  function MergeProperties(st: PolicyState): PolicyState {
    if |st.properties| > 0 then st.(props := st.props + st.properties) else st
  }

  /** One run of the handler over a group of attributes. */
  function HandlePass(st: PolicyState, attrs: seq<Attribute>): PolicyState {
    MergeProperties(ApplyAll(st, attrs))
  }

  /**
   * handleServiceAttributes: a loop over the attributes, then a loop over the keys of the
   * last property mappings seen, copying each into the bag.
   */
  method HandleServiceAttributes(st: PolicyState, attrs: seq<Attribute>) returns (r: PolicyState)
    ensures r == HandlePass(st, attrs)
  {
    r := st;
    for i := 0 to |attrs|
      invariant r == ApplyAll(st, attrs[..i])
    {
      assert attrs[..i + 1][..i] == attrs[..i];
      match attrs[i].kind {
        case ComputeAttributes(cpus, ram) =>
          r := r.(props := r.props["cpus" := cpus]);
          r := r.(props := r.props["ram" := ram]);
        case ArchitectureAttributes(arch) =>
          r := r.(policyArch := arch);
        case HAAttributes(partners) =>
          r := r.(haPartner := partners);
        case MeteringAttributes(tokens, unit, interval) =>
          r := r.(meterPolicy := Meter(tokens, unit, interval));
        case CounterPartyPropertyAttributes(expression) =>
          r := r.(counterPartyProperties := expression);
        case PropertyAttributes(mappings) =>
          r := r.(properties := mappings);
        case AgreementProtocolAttributes(protocols) =>
          r := r.(serviceAgreementProtocols := protocols);
        case OtherAttributes(_) =>
      }
    }
    assert attrs[..|attrs|] == attrs;

    if |r.properties| > 0 {
      var merged := AddProperties(r.props, r.properties);
      r := r.(props := merged);
    }
  }

  /** The loop over the keys of the mappings, writing each into the bag. */
  method AddProperties(props: Properties, mappings: Properties) returns (merged: Properties)
    ensures merged.Keys == props.Keys + mappings.Keys
    ensures forall key :: key in mappings ==> merged[key] == mappings[key]
    ensures forall key :: key in props && key !in mappings ==> merged[key] == props[key]
  {
    merged := props;
    var pending := mappings.Keys;
    while pending != {}
      invariant pending <= mappings.Keys
      invariant merged.Keys == props.Keys + (mappings.Keys - pending)
      invariant forall key :: key in mappings.Keys - pending ==> merged[key] == mappings[key]
      invariant forall key :: key in props && key !in mappings.Keys - pending ==> merged[key] == props[key]
      decreases pending
    {
      var key :| key in pending;
      merged := merged[key := mappings[key]];
      pending := pending - {key};
    }
  }

  // ---- which attribute wins ----

  /** The last attribute of the given kind in the list, if any: an independent reference. */
  function Latest(attrs: seq<Attribute>, t: Tag): Option<AttributeKind>
    decreases |attrs|
  {
    if |attrs| == 0 then None
    else if TagOf(attrs[|attrs| - 1].kind) == t then Some(attrs[|attrs| - 1].kind)
    else Latest(attrs[..|attrs| - 1], t)
  }

  /** The bag entries a compute attribute writes. */
  function ComputeProps(k: Option<AttributeKind>): Properties {
    match k
    case Some(ComputeAttributes(cpus, ram)) => map["cpus" := cpus, "ram" := ram]
    case _ => map[]
  }

  // The value a deciding attribute gives a field, or `dflt` when there is none.

  function ArchOr(k: Option<AttributeKind>, dflt: string): string {
    match k case Some(ArchitectureAttributes(arch)) => arch case _ => dflt
  }

  function PartnersOr(k: Option<AttributeKind>, dflt: seq<string>): seq<string> {
    match k case Some(HAAttributes(partners)) => partners case _ => dflt
  }

  function MeterOr(k: Option<AttributeKind>, dflt: Meter): Meter {
    match k case Some(MeteringAttributes(t, u, n)) => Meter(t, u, n) case _ => dflt
  }

  function ExpressionOr(k: Option<AttributeKind>, dflt: Properties): Properties {
    match k case Some(CounterPartyPropertyAttributes(e)) => e case _ => dflt
  }

  function MappingsOr(k: Option<AttributeKind>, dflt: Properties): Properties {
    match k case Some(PropertyAttributes(m)) => m case _ => dflt
  }

  function ProtocolsOr(k: Option<AttributeKind>, dflt: seq<string>): seq<string> {
    match k case Some(AgreementProtocolAttributes(p)) => p case _ => dflt
  }

  /** A compute attribute rewrites both of the entries an earlier one may have left. */
  lemma OverwriteCompute(base: Properties, earlier: Properties, cpus: string, ram: string)
    requires earlier.Keys <= {"cpus", "ram"}
    ensures (base + earlier)["cpus" := cpus]["ram" := ram] == base + map["cpus" := cpus, "ram" := ram]
  {
    var lhs := (base + earlier)["cpus" := cpus]["ram" := ram];
    var rhs := base + map["cpus" := cpus, "ram" := ram];
    assert lhs.Keys == rhs.Keys;
    forall key | key in lhs ensures lhs[key] == rhs[key] {
    }
  }

  /** Within one group, the bag gains exactly the entries of the last compute attribute. */
  lemma {:induction false} LastComputeWins(st: PolicyState, attrs: seq<Attribute>)
    ensures ApplyAll(st, attrs).props == st.props + ComputeProps(Latest(attrs, Compute))
    decreases |attrs|
  {
    if |attrs| == 0 {
      assert st.props + map[] == st.props;
    } else {
      var init := attrs[..|attrs| - 1];
      LastComputeWins(st, init);
      var last := attrs[|attrs| - 1].kind;
      var earlier := ComputeProps(Latest(init, Compute));
      assert earlier.Keys <= {"cpus", "ram"};
      if last.ComputeAttributes? {
        OverwriteCompute(st.props, earlier, last.cpus, last.ram);
      }
    }
  }

  /**
   * Within one group, the last attribute of each kind decides that kind's field, and a
   * field no attribute of the group sets keeps its value.
   */
  lemma {:induction false} LastWriterWins(st: PolicyState, attrs: seq<Attribute>)
    ensures var r := ApplyAll(st, attrs);
      && r.policyArch == ArchOr(Latest(attrs, Architecture), st.policyArch)
      && r.haPartner == PartnersOr(Latest(attrs, HA), st.haPartner)
      && r.meterPolicy == MeterOr(Latest(attrs, Metering), st.meterPolicy)
      && r.counterPartyProperties == ExpressionOr(Latest(attrs, CounterParty), st.counterPartyProperties)
      && r.properties == MappingsOr(Latest(attrs, Property), st.properties)
      && r.serviceAgreementProtocols == ProtocolsOr(Latest(attrs, AgreementProtocol), st.serviceAgreementProtocols)
    decreases |attrs|
  {
    if |attrs| > 0 {
      LastWriterWins(st, attrs[..|attrs| - 1]);
    }
  }

  /** The handler's state once both groups have been handled, common first. */
  function CompiledState(attrs: seq<Attribute>): PolicyState {
    HandlePass(HandlePass(Unset, CommonOf(attrs)), SpecificOf(attrs))
  }

  function MappingsOf(k: Option<AttributeKind>): Properties {
    MappingsOr(k, map[])
  }

  /**
   * The bag the compiler hands on, layer by layer, later layers overriding earlier ones:
   * the last common compute entries, the last common property mappings, the last specific
   * compute entries, and finally the property mappings in force after the second pass:
   * the last specific ones, or the common ones again when the specific group has none.
   */
  function ExpectedProps(common: seq<Attribute>, specific: seq<Attribute>): Properties {
    var commonMappings := MappingsOf(Latest(common, Property));
    ComputeProps(Latest(common, Compute)) + commonMappings
      + ComputeProps(Latest(specific, Compute)) + MappingsOr(Latest(specific, Property), commonMappings)
  }

  /** Merging the property mappings touches the bag only, and adds the mappings to it. */
  lemma MergeAddsMappings(st: PolicyState)
    ensures MergeProperties(st) == st.(props := st.props + st.properties)
  {
    if |st.properties| == 0 {
      assert st.properties == map[];
      assert st.props + st.properties == st.props;
    }
  }

  /**
   * Specific attributes override common ones field by field: architecture, HA partners,
   * metering, counterparty properties and agreement protocols come from the last specific
   * attribute of their kind, else from the last common one, else keep their zero value.
   */
  lemma CompiledFields(attrs: seq<Attribute>)
    ensures var c, s := CommonOf(attrs), SpecificOf(attrs);
      var r := CompiledState(attrs);
      && r.policyArch == ArchOr(Latest(s, Architecture), ArchOr(Latest(c, Architecture), ""))
      && r.haPartner == PartnersOr(Latest(s, HA), PartnersOr(Latest(c, HA), []))
      && r.meterPolicy == MeterOr(Latest(s, Metering), MeterOr(Latest(c, Metering), NoMeter))
      && r.counterPartyProperties
         == ExpressionOr(Latest(s, CounterParty), ExpressionOr(Latest(c, CounterParty), map[]))
      && r.serviceAgreementProtocols
         == ProtocolsOr(Latest(s, AgreementProtocol), ProtocolsOr(Latest(c, AgreementProtocol), []))
  {
    var c, s := CommonOf(attrs), SpecificOf(attrs);
    var a1 := ApplyAll(Unset, c);
    LastWriterWins(Unset, c);
    MergeAddsMappings(a1);
    var p1 := HandlePass(Unset, c);
    var a2 := ApplyAll(p1, s);
    LastWriterWins(p1, s);
    MergeAddsMappings(a2);
    assert CompiledState(attrs) == HandlePass(p1, s);
  }

  /** One pass over a group: its last compute entries, then the mappings in force, go into the bag. */
  lemma PassProps(st: PolicyState, attrs: seq<Attribute>)
    ensures HandlePass(st, attrs).properties == MappingsOr(Latest(attrs, Property), st.properties)
    ensures HandlePass(st, attrs).props
         == st.props + ComputeProps(Latest(attrs, Compute)) + MappingsOr(Latest(attrs, Property), st.properties)
  {
    var a := ApplyAll(st, attrs);
    LastWriterWins(st, attrs);
    LastComputeWins(st, attrs);
    MergeAddsMappings(a);
  }

  /** The first pass starts from an empty bag. */
  lemma FirstPassProps(common: seq<Attribute>)
    ensures HandlePass(Unset, common).properties == MappingsOf(Latest(common, Property))
    ensures HandlePass(Unset, common).props
         == ComputeProps(Latest(common, Compute)) + MappingsOf(Latest(common, Property))
  {
    PassProps(Unset, common);
    EmptyBagUnion(ComputeProps(Latest(common, Compute)));
  }

  lemma EmptyBagUnion(m: Properties)
    ensures map[] + m == m
  {
    var u: Properties := map[] + m;
    assert u.Keys == m.Keys;
  }

  /** The compiled property bag is exactly the layered `ExpectedProps`. */
  lemma CompiledProps(attrs: seq<Attribute>)
    ensures CompiledState(attrs).props == ExpectedProps(CommonOf(attrs), SpecificOf(attrs))
  {
    var c, s := CommonOf(attrs), SpecificOf(attrs);
    FirstPassProps(c);
    PassProps(HandlePass(Unset, c), s);
  }

  /** The property mappings in force when the policy is built. */
  function FinalMappings(attrs: seq<Attribute>): Properties {
    MappingsOr(Latest(SpecificOf(attrs), Property), MappingsOf(Latest(CommonOf(attrs), Property)))
  }

  /** Round trip: a key the last specific property attribute maps ends up with that value. */
  lemma SpecificPropertyWins(attrs: seq<Attribute>, mappings: Properties, key: string)
    requires Latest(SpecificOf(attrs), Property) == Some(PropertyAttributes(mappings))
    requires key in mappings
    ensures key in CompiledState(attrs).props && CompiledState(attrs).props[key] == mappings[key]
  {
    CompiledProps(attrs);
  }

  /**
   * When the specific group has no property attribute, the common mappings are written
   * again at the end of the second pass and so override a specific compute attribute on a
   * shared key such as "cpus".
   */
  lemma CommonMappingsReapplied(attrs: seq<Attribute>, mappings: Properties, key: string)
    requires Latest(SpecificOf(attrs), Property).None?
    requires Latest(CommonOf(attrs), Property) == Some(PropertyAttributes(mappings))
    requires key in mappings
    ensures key in CompiledState(attrs).props && CompiledState(attrs).props[key] == mappings[key]
  {
    CompiledProps(attrs);
  }

  /** The last specific compute attribute decides "cpus" and "ram" unless the mappings in force name them. */
  lemma SpecificComputeWins(attrs: seq<Attribute>, cpus: string, ram: string)
    requires Latest(SpecificOf(attrs), Compute) == Some(ComputeAttributes(cpus, ram))
    ensures "cpus" !in FinalMappings(attrs) ==>
      "cpus" in CompiledState(attrs).props && CompiledState(attrs).props["cpus"] == cpus
    ensures "ram" !in FinalMappings(attrs) ==>
      "ram" in CompiledState(attrs).props && CompiledState(attrs).props["ram"] == ram
  {
    CompiledProps(attrs);
  }

  /**
   * Keys the specific group leaves alone survive from the common pass: with no specific
   * compute attribute, the common "cpus" and "ram" stay unless a mapping names them.
   */
  lemma CommonComputeSurvives(attrs: seq<Attribute>, cpus: string, ram: string)
    requires Latest(CommonOf(attrs), Compute) == Some(ComputeAttributes(cpus, ram))
    requires Latest(SpecificOf(attrs), Compute).None?
    ensures "cpus" !in MappingsOf(Latest(CommonOf(attrs), Property)) && "cpus" !in FinalMappings(attrs) ==>
      "cpus" in CompiledState(attrs).props && CompiledState(attrs).props["cpus"] == cpus
    ensures "ram" !in MappingsOf(Latest(CommonOf(attrs), Property)) && "ram" !in FinalMappings(attrs) ==>
      "ram" in CompiledState(attrs).props && CompiledState(attrs).props["ram"] == ram
  {
    CompiledProps(attrs);
  }

  /**
   * The smallest case of the override above: a common property attribute that maps only
   * "cpus", and a specific compute attribute. The common "cpus" value wins over the
   * specific one, while "ram" comes from the specific attribute.
   */
  lemma CommonCpusBeatSpecificCompute(attrs: seq<Attribute>, sensorUrls: seq<string>, mapped: string,
                                      cpus: string, ram: string)
    requires CommonOf(attrs) == [Attribute([], PropertyAttributes(map["cpus" := mapped]))]
    requires SpecificOf(attrs) == [Attribute(sensorUrls, ComputeAttributes(cpus, ram))]
    ensures "cpus" in CompiledState(attrs).props && CompiledState(attrs).props["cpus"] == mapped
    ensures "ram" in CompiledState(attrs).props && CompiledState(attrs).props["ram"] == ram
  {
    var common := map["cpus" := mapped];
    LatestOfOne(CommonOf(attrs)[0], Property);
    LatestOfOne(SpecificOf(attrs)[0], Compute);
    LatestOfOne(SpecificOf(attrs)[0], Property);
    CommonMappingsReapplied(attrs, common, "cpus");
    assert FinalMappings(attrs) == common;
    SpecificComputeWins(attrs, cpus, ram);
  }

  lemma LatestOfOne(a: Attribute, t: Tag)
    ensures Latest([a], t) == if TagOf(a.kind) == t then Some(a.kind) else None
  {
    assert [a][..0] == [];
  }

  // ---- the compiled policy ----

  /** The number of agreements the policy admits: 2 for a shared mode, 1 otherwise. */
  function MaxAgreements(sharable: string): (n: int)
    ensures n == 1 || n == 2
    ensures sharable == Conversion.EXCLUSIVE ==> n == 1
  {
    if sharable == Conversion.SINGLE || sharable == Conversion.MULTIPLE then 2 else 1
  }

  /** For a converted record (whose mode is normalised), 1 agreement exactly when it is exclusive. */
  lemma MaxAgreementsByMode(sharable: string)
    ensures MaxAgreements(sharable) == 2 <==> sharable in {Conversion.SINGLE, Conversion.MULTIPLE}
    ensures MaxAgreements(sharable) == 1 <==> sharable !in {Conversion.SINGLE, Conversion.MULTIPLE}
    ensures Conversion.IsSharingMode(sharable) ==>
      (MaxAgreements(sharable) == 1 <==> sharable == Conversion.EXCLUSIVE)
  {
  }

  /** The attributes that apply to a spec ref, as the attribute store returns them. */
  type AttributeStore = string -> Result<seq<Attribute>, string>

  /** ConvertToAgreementProtocolList: checks the raw protocol list; it may fail. */
  type ProtocolConverter = seq<string> -> Result<seq<string>, string>

  /** The inputs of GeneratePolicy. */
  datatype PolicyRecord = PolicyRecord(
    specRef: string,
    org: string,
    name: string,
    version: string,
    arch: string,
    props: Properties,
    haPartners: seq<string>,
    meterPolicy: Meter,
    counterPartyProperties: Properties,
    agreementProtocols: seq<string>,
    maxAgreements: int,
    policyPath: string,
    deviceOrg: string)

  /** GeneratePolicy's failure, if it fails to write the policy for a record. */
  type PolicyGenerator = PolicyRecord -> Option<string>

  /** The message sent downstream once a policy is generated. */
  datatype Message = PolicyCreated(policy: PolicyRecord)

  /** The record GenMicroservicePolicy builds, or the error it returns. */
  function CompilePolicy(d: MicroserviceDefinition, policyPath: string, deviceOrg: string,
                         attributes: AttributeStore, convert: ProtocolConverter, generate: PolicyGenerator)
    : Result<PolicyRecord, Error>
  {
    match attributes(d.specRef)
    case Failure(cause) => Failure(AttributeLookupFailed(d.specRef, cause))
    case Success(attrs) =>
      var st := CompiledState(attrs);
      match convert(st.serviceAgreementProtocols)
      case Failure(cause) => Failure(ProtocolListFailed(cause))
      case Success(list) =>
        var rec := PolicyRecord(d.specRef, d.org, d.name, d.version, st.policyArch, st.props, st.haPartner,
                                st.meterPolicy, st.counterPartyProperties, list, MaxAgreements(d.sharable),
                                policyPath, deviceOrg);
        match generate(rec)
        case Some(cause) => Failure(PolicyGenerationFailed(d.specRef, d.version, cause))
        case None => Success(rec)
  }

  /**
   * Compilation fails on an attribute-store error, on a protocol list the converter
   * rejects, or when the policy cannot be generated, in that order; a compiled policy
   * carries the definition's identity, the compiled attributes and the agreement limit
   * of its sharing mode.
   */
  lemma CompileOutcome(d: MicroserviceDefinition, policyPath: string, deviceOrg: string,
                       attributes: AttributeStore, convert: ProtocolConverter, generate: PolicyGenerator)
    ensures var r := CompilePolicy(d, policyPath, deviceOrg, attributes, convert, generate);
      && (attributes(d.specRef).Failure? ==>
            r == Failure(AttributeLookupFailed(d.specRef, attributes(d.specRef).error)))
      && (attributes(d.specRef).Success? ==>
            var st := CompiledState(attributes(d.specRef).value);
            && (convert(st.serviceAgreementProtocols).Failure? ==>
                  r == Failure(ProtocolListFailed(convert(st.serviceAgreementProtocols).error)))
            && (r.Success? ==>
                  && convert(st.serviceAgreementProtocols).Success?
                  && generate(r.value).None?
                  && r.value.specRef == d.specRef && r.value.org == d.org
                  && r.value.name == d.name && r.value.version == d.version
                  && r.value.arch == st.policyArch && r.value.props == st.props
                  && r.value.haPartners == st.haPartner && r.value.meterPolicy == st.meterPolicy
                  && r.value.counterPartyProperties == st.counterPartyProperties
                  && r.value.agreementProtocols == convert(st.serviceAgreementProtocols).value
                  && r.value.maxAgreements == MaxAgreements(d.sharable)
                  && r.value.policyPath == policyPath && r.value.deviceOrg == deviceOrg))
      && (r.Failure? && attributes(d.specRef).Success?
          && convert(CompiledState(attributes(d.specRef).value).serviceAgreementProtocols).Success? ==>
            r.error == PolicyGenerationFailed(d.specRef, d.version, r.error.cause))
  {
  }

  /** The channel the policy message is sent on; `sent` is everything sent so far, in order. */
  class Outbox {
    var sent: seq<Message>

    constructor ()
      ensures sent == []
    {
      sent := [];
    }

    method Send(m: Message)
      modifies this
      ensures sent == old(sent) + [m]
    {
      sent := sent + [m];
    }
  }

  /**
   * GenMicroservicePolicy: on success exactly one message, carrying the compiled policy,
   * is sent; on any error nothing is sent and the error is returned.
   */
  method GenMicroservicePolicy(d: MicroserviceDefinition, policyPath: string, attributes: AttributeStore,
                               convert: ProtocolConverter, generate: PolicyGenerator,
                               e: Outbox, deviceOrg: string)
    returns (err: Option<Error>)
    modifies e
    ensures var r := CompilePolicy(d, policyPath, deviceOrg, attributes, convert, generate);
      && (r.Failure? ==> err == Some(r.error) && e.sent == old(e.sent))
      && (r.Success? ==> err == None && e.sent == old(e.sent) + [PolicyCreated(r.value)])
  {
    var found := attributes(d.specRef);
    if found.Failure? {
      return Some(AttributeLookupFailed(d.specRef, found.error));
    }
    var common, specific := PartitionAttributes(found.value);

    // common attributes first, then the specific ones override them
    var st := HandleServiceAttributes(Unset, common);
    st := HandleServiceAttributes(st, specific);

    var list := convert(st.serviceAgreementProtocols);
    if list.Failure? {
      return Some(ProtocolListFailed(list.error));
    }

    var maxAgreements := 1;
    if d.sharable == Conversion.SINGLE || d.sharable == Conversion.MULTIPLE {
      maxAgreements := 2;
    }

    var rec := PolicyRecord(d.specRef, d.org, d.name, d.version, st.policyArch, st.props, st.haPartner,
                            st.meterPolicy, st.counterPartyProperties, list.value, maxAgreements,
                            policyPath, deviceOrg);
    var failure := generate(rec);
    if failure.Some? {
      return Some(PolicyGenerationFailed(d.specRef, d.version, failure.value));
    }
    e.Send(PolicyCreated(rec));
    return None;
  }
}
