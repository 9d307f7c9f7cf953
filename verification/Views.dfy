/** What each of the six in-memory views must be, as relations between the stored slices and
    device groups and the published list. A relation leaves open exactly what the code leaves
    open: the order in which maps are walked and the order of tied elements of a sort. */
module Views {
  import opened Prelude
  import opened Models
  import Bitrate

  // ---------- S-NSSAI (section 28.4.2 of 3GPP TS 23.003) ----------

  predicate AllDigits(s: string) { s != [] && forall c :: c in s ==> Bitrate.IsDigit(c) }

  /** strconv.ParseInt(s, 10, 64). */
  function ParseInt64(s: string): Option<int64> {
    var signed := s != [] && (s[0] == '-' || s[0] == '+');
    var digits := if signed then s[1..] else s;
    if !AllDigits(digits) then None
    else
      var n: int := Bitrate.ParseUint(digits);
      var v: int := if signed && s[0] == '-' then -n else n;
      if -TWO_TO_63 <= v < TWO_TO_63 then Some(v) else None
  }

  /** The int32(x) conversion of an int64. */
  function Truncate32(x: int64): int32 {
    var m := x % TWO_TO_32;
    if m >= TWO_TO_31 then m - TWO_TO_32 else m
  }

  datatype Snssai = Snssai(sst: int32, sd: Option<string>)

  function ParseSnssai(id: SliceId): Option<Snssai> {
    var v := ParseInt64(id.sst);
    if v.None? then None
    else Some(Snssai(Truncate32(v.value), if id.sd == "" then None else Some(id.sd)))
  }

  // ---------- comparators ----------

  predicate PlmnLess(a: Plmn, b: Plmn) {
    if a.mcc != b.mcc then StringLess(a.mcc, b.mcc) else StringLess(a.mnc, b.mnc)
  }

  predicate SnssaiLess(a: Snssai, b: Snssai) {
    if a.sst != b.sst then a.sst < b.sst
    else if a.sd.None? && b.sd.Some? then true
    else if a.sd.Some? && b.sd.None? then false
    else if a.sd.Some? && b.sd.Some? then StringLess(a.sd.value, b.sd.value)
    else false
  }

  function SdText(x: Snssai): string { if x.sd.Some? then x.sd.value else "" }

  /** The comparator shared by the access-mobility and policy-control views. */
  predicate PlmnThenSnssaiLess(a: (Plmn, Snssai), b: (Plmn, Snssai)) {
    if a.0.mcc != b.0.mcc then StringLess(a.0.mcc, b.0.mcc)
    else if a.0.mnc != b.0.mnc then StringLess(a.0.mnc, b.0.mnc)
    else if a.1.sst != b.1.sst then a.1.sst < b.1.sst
    else if a.1.sd.Some? != b.1.sd.Some? then a.1.sd.None?
    else StringLess(SdText(a.1), SdText(b.1))
  }

  lemma PlmnOrder()
    ensures StrictTotalOrder(PlmnLess)
  {
    StringOrder();
  }

  lemma SnssaiOrder()
    ensures StrictTotalOrder(SnssaiLess)
  {
    StringOrder();
  }

  /** The two comparators agree, so the pair order is the lexicographic product. */
  lemma PlmnThenSnssaiIsLexicographic(a: (Plmn, Snssai), b: (Plmn, Snssai))
    ensures PlmnThenSnssaiLess(a, b) <==> PlmnLess(a.0, b.0) || (a.0 == b.0 && SnssaiLess(a.1, b.1))
  {
    StringOrder();
  }

  lemma PlmnThenSnssaiOrder()
    ensures StrictTotalOrder(PlmnThenSnssaiLess)
  {
    PlmnOrder();
    SnssaiOrder();
    forall a, b ensures PlmnThenSnssaiLess(a, b) <==> PlmnLess(a.0, b.0) || (a.0 == b.0 && SnssaiLess(a.1, b.1)) {
      PlmnThenSnssaiIsLexicographic(a, b);
    }
    forall a, b, c | PlmnThenSnssaiLess(a, b) && PlmnThenSnssaiLess(b, c) ensures PlmnThenSnssaiLess(a, c) {
      PlmnThenSnssaiIsLexicographic(a, c);
    }
  }

  // ---------- PLMN view ----------

  /** The text under which syncPlmn looks for duplicates. */
  function PlmnKey(p: Plmn): string { p.mcc + ":" + p.mnc }

  predicate HasKey(ps: seq<Plmn>, key: string) {
    exists i :: 0 <= i < |ps| && PlmnKey(ps[i]) == key
  }

  /** The PLMNs of the slices, keeping the first one under each key. */
  function FirstPlmns(slices: seq<Slice>): seq<Plmn> {
    if slices == [] then []
    else
      var kept := FirstPlmns(slices[..|slices| - 1]);
      var p := slices[|slices| - 1].plmn;
      if HasKey(kept, PlmnKey(p)) then kept else kept + [p]
  }

  ghost predicate IsPlmnView(slices: seq<Slice>, view: seq<Plmn>) {
    IsSortOf(PlmnLess, FirstPlmns(slices), view)
  }

  function PlmnsOf(slices: seq<Slice>): set<Plmn> { set s | s in slices :: s.plmn }

  // ---------- PLMN / S-NSSAI view ----------

  datatype PlmnSnssai = PlmnSnssai(plmn: Plmn, snssais: seq<Snssai>)

  predicate PlmnSnssaiLess(a: PlmnSnssai, b: PlmnSnssai) { PlmnLess(a.plmn, b.plmn) }

  /** Raw slice ids per PLMN. */
  function IdsByPlmn(slices: seq<Slice>): map<Plmn, set<SliceId>> {
    map p | p in PlmnsOf(slices) :: set s | s in slices && s.plmn == p :: s.id
  }

  /** The raw ids that parse to one S-NSSAI value. */
  function Spellings(ids: set<SliceId>, x: Snssai): set<SliceId> {
    set id | id in ids && ParseSnssai(id) == Some(x)
  }

  /** list holds each S-NSSAI once for every raw id that parses to it. */
  ghost predicate ListsSnssais(ids: set<SliceId>, list: seq<Snssai>) {
    forall x :: multiset(list)[x] == |Spellings(ids, x)|
  }

  lemma SpellingsStep(ids: set<SliceId>, id: SliceId, x: Snssai)
    requires id !in ids
    ensures |Spellings(ids + {id}, x)| == |Spellings(ids, x)| + if ParseSnssai(id) == Some(x) then 1 else 0
  {
    if ParseSnssai(id) == Some(x) {
      assert Spellings(ids + {id}, x) == Spellings(ids, x) + {id};
    } else {
      assert Spellings(ids + {id}, x) == Spellings(ids, x);
    }
  }

  lemma NonEmptyListing(ids: set<SliceId>, list: seq<Snssai>)
    requires ListsSnssais(ids, list)
    ensures list != [] <==> exists id :: id in ids && ParseSnssai(id).Some?
  {
    if list != [] {
      assert multiset(list)[list[0]] > 0;
      assert Spellings(ids, list[0]) != {};
      var id :| id in Spellings(ids, list[0]);
    }
    if id :| id in ids && ParseSnssai(id).Some? {
      var x := ParseSnssai(id).value;
      assert id in Spellings(ids, x);
      assert x in multiset(list);
    }
  }

  ghost predicate IsSnssaiEntry(idsByPlmn: map<Plmn, set<SliceId>>, e: PlmnSnssai) {
    && e.plmn in idsByPlmn && e.snssais != []
    && Sorted(SnssaiLess, e.snssais)
    && ListsSnssais(idsByPlmn[e.plmn], e.snssais)
  }

  ghost predicate IsSnssaiListing(idsByPlmn: map<Plmn, set<SliceId>>, view: seq<PlmnSnssai>) {
    && StrictlySorted(PlmnSnssaiLess, view)
    && (forall e :: e in view ==> IsSnssaiEntry(idsByPlmn, e))
    && (forall p, id :: p in idsByPlmn && id in idsByPlmn[p] && ParseSnssai(id).Some?
          ==> exists e :: e in view && e.plmn == p)
  }

  ghost predicate IsPlmnSnssaiView(slices: seq<Slice>, view: seq<PlmnSnssai>) {
    IsSnssaiListing(IdsByPlmn(slices), view)
  }

  // ---------- access and mobility view ----------

  datatype AmKey = AmKey(plmn: Plmn, id: SliceId)
  datatype AccessAndMobility = AccessAndMobility(plmn: Plmn, snssai: Snssai, tacs: seq<string>)

  predicate AmLess(a: AccessAndMobility, b: AccessAndMobility) {
    PlmnThenSnssaiLess((a.plmn, a.snssai), (b.plmn, b.snssai))
  }

  function TacsOfGnbs(gnbs: seq<Gnb>): set<string> { set g | g in gnbs :: Bitrate.Itoa(g.tac) }

  function KeysOf(slices: seq<Slice>): set<AmKey> { set s | s in slices :: AmKey(s.plmn, s.id) }

  /** Decimal TACs of every gNB of every slice under one key. */
  function TacsByKey(slices: seq<Slice>): map<AmKey, set<string>> {
    map k | k in KeysOf(slices) ::
      set s, t | s in slices && AmKey(s.plmn, s.id) == k && t in TacsOfGnbs(s.gnbs) :: t
  }

  function ParsableKeys(tacs: map<AmKey, set<string>>): set<AmKey> {
    set k | k in tacs && ParseSnssai(k.id).Some?
  }

  ghost function AmEntry(tacs: map<AmKey, set<string>>, k: AmKey): AccessAndMobility {
    var x := ParseSnssai(k.id);
    AccessAndMobility(k.plmn, if x.Some? then x.value else Snssai(0, None),
                      if k in tacs then SortedSet(tacs[k]) else [])
  }

  ghost function AmEntries(tacs: map<AmKey, set<string>>, keys: seq<AmKey>): seq<AccessAndMobility> {
    Map(k => AmEntry(tacs, k), keys)
  }

  /** One entry per raw key with a parsable SST, sorted. */
  ghost predicate IsAmListing(tacs: map<AmKey, set<string>>, view: seq<AccessAndMobility>) {
    exists keys :: Enumerates(keys, ParsableKeys(tacs)) && IsSortOf(AmLess, AmEntries(tacs, keys), view)
  }

  ghost predicate IsAmView(slices: seq<Slice>, view: seq<AccessAndMobility>) {
    IsAmListing(TacsByKey(slices), view)
  }

  lemma AmOrder()
    ensures StrictWeakOrder(AmLess)
    ensures forall x, y :: !AmLess(x, y) && !AmLess(y, x) <==> x.plmn == y.plmn && x.snssai == y.snssai
  {
    PlmnThenSnssaiOrder();
    var key := (e: AccessAndMobility) => (e.plmn, e.snssai);
    KeyOrder(AmLess, key, PlmnThenSnssaiLess);
    forall x, y ensures !AmLess(x, y) && !AmLess(y, x) <==> x.plmn == y.plmn && x.snssai == y.snssai {
      assert key(x) == key(y) <==> x.plmn == y.plmn && x.snssai == y.snssai;
    }
  }

  // ---------- session management view ----------

  datatype IpDomainInfo = IpDomainInfo(dnn: string, dns: string, pool: string, mtu: int32, pcscf: Option<string>)
  datatype Upf = Upf(hostname: string, port: Option<int32>)

  /** Unset IP domains and gNB names are empty lists. */
  datatype SessionManagement = SessionManagement(
    sliceName: string, plmn: Plmn, snssai: Snssai, ipDomains: seq<IpDomainInfo>, upf: Option<Upf>, gnbNames: seq<string>)

  predicate SessionLess(a: SessionManagement, b: SessionManagement) { StringLess(a.sliceName, b.sliceName) }

  function IpDomainInfoOf(d: IpDomain): IpDomainInfo {
    IpDomainInfo(d.dnn, d.dnsPrimary, d.ueIpPool, d.mtu, if d.pcscfPrimary != "" then Some(d.pcscfPrimary) else None)
  }

  /** IP domains of the groups that exist, in the order the slice lists them. */
  function DomainsOf(names: seq<string>, groups: map<string, Group>): seq<IpDomain> {
    if names == [] then []
    else
      var last := names[|names| - 1];
      DomainsOf(names[..|names| - 1], groups) + if last in groups then groups[last].domains else []
  }

  function IpDomainsOf(names: seq<string>, groups: map<string, Group>): seq<IpDomainInfo> {
    Map(IpDomainInfoOf, DomainsOf(names, groups))
  }

  /** strconv.ParseUint(v, 10, 16), or a number in range truncated. */
  function PortOf(v: Json): Option<int32> {
    match v
    case Text(t) =>
      if AllDigits(t) && Bitrate.ParseUint(t) < 65536 then Some(Bitrate.ParseUint(t)) else None
    case Number(x) => if 0.0 <= x <= 65535.0 then Some(x.Floor) else None
    case Other(_) => None
  }

  function UpfOf(upf: Option<map<string, Json>>): Option<Upf> {
    if upf.None? || "upf-name" !in upf.value then None
    else
      var host := upf.value["upf-name"];
      if !host.Text? || host.text == "" then None
      else Some(Upf(host.text, if "upf-port" in upf.value then PortOf(upf.value["upf-port"]) else None))
  }

  function GnbNames(gnbs: seq<Gnb>): seq<string> { Map((g: Gnb) => g.name, gnbs) }

  function Session(s: Slice, groups: map<string, Group>): Option<SessionManagement> {
    var x := ParseSnssai(s.id);
    if x.None? then None
    else Some(SessionManagement(s.name, s.plmn, x.value, IpDomainsOf(s.groups, groups), UpfOf(s.upf),
                                InsertionSort(StringLess, GnbNames(s.gnbs))))
  }

  function Sessions(slices: seq<Slice>, groups: map<string, Group>): seq<SessionManagement> {
    if slices == [] then []
    else
      var e := Session(slices[|slices| - 1], groups);
      Sessions(slices[..|slices| - 1], groups) + if e.Some? then [e.value] else []
  }

  ghost predicate IsSessionView(slices: seq<Slice>, groups: map<string, Group>, view: seq<SessionManagement>) {
    IsSortOf(SessionLess, Sessions(slices, groups), view)
  }

  // ---------- policy control view ----------

  datatype PccRule = PccRule(
    id: string, flow: string, enabled: bool, qci: int32, arp: int32, maxUplink: Option<string>, maxDownlink: Option<string>,
    precedence: int32)

  datatype PolicyControl = PolicyControl(plmn: Plmn, snssai: Snssai, dnns: seq<string>, rules: seq<PccRule>)

  const DefaultRule := PccRule("DefaultRule", "permit out ip from any to assigned", true, 9, 1, None, None, 255)

  predicate PolicyLess(a: PolicyControl, b: PolicyControl) {
    PlmnThenSnssaiLess((a.plmn, a.snssai), (b.plmn, b.snssai))
  }

  predicate RuleLess(a: PccRule, b: PccRule) {
    if a.precedence != b.precedence then a.precedence < b.precedence else StringLess(a.id, b.id)
  }

  lemma RuleOrder()
    ensures StrictWeakOrder(RuleLess)
  {
    StringOrder();
  }

  function PrintedMaxRate(rate: int32): Option<string> {
    if rate != 0 then Some(Bitrate.ConvertToString(Bitrate.ToUint64(rate))) else None
  }

  /** The sdfComp setting of the server, which moves the ports to the source side. */
  const SDF_COMP: bool

  const TCP: int32 := 6
  const UDP: int32 := 17

  /** buildDescription. */
  function PortDescription(protocol: string, endpoint: string, startPort: int32, endPort: int32): string {
    var ports := Bitrate.Itoa(startPort) + "-" + Bitrate.Itoa(endPort);
    if startPort == 0 && endPort == 0 then "permit out " + protocol + " from " + endpoint + " to assigned"
    else if SDF_COMP then "permit out " + protocol + " from " + endpoint + " " + ports + " to assigned"
    else "permit out " + protocol + " from " + endpoint + " to assigned " + ports
  }

  /** The IPFilterRule text of a rule (section 4.3.1 of RFC 6733). */
  function FlowDescription(r: Rule): string {
    var endpoint := if "0.0.0.0" <= r.endpoint then "any" else r.endpoint;
    if r.protocol == TCP then PortDescription("tcp", endpoint, r.startPort, r.endPort)
    else if r.protocol == UDP then PortDescription("udp", endpoint, r.startPort, r.endPort)
    else "permit out ip from " + endpoint + " to assigned"
  }

  function PccRuleOf(r: Rule): PccRule {
    PccRule(r.name, FlowDescription(r), r.action != "deny", r.trafficClass.qci, r.trafficClass.arp,
            PrintedMaxRate(r.uplink), PrintedMaxRate(r.downlink), r.priority)
  }

  function UnsortedRules(s: Slice): seq<PccRule> {
    if s.rules == [] then [DefaultRule] else Map(PccRuleOf, s.rules)
  }

  function Dnns(domains: seq<IpDomain>): seq<string> { Map((d: IpDomain) => d.dnn, domains) }

  /** e is an entry the code can build for a slice whose SST parses. */
  ghost predicate IsPolicyEntry(s: Slice, groups: map<string, Group>, e: PolicyControl) {
    && e.plmn == s.plmn && ParseSnssai(s.id) == Some(e.snssai)
    && IsSortOf(StringLess, Dnns(DomainsOf(s.groups, groups)), e.dnns)
    && IsSortOf(RuleLess, UnsortedRules(s), e.rules)
  }

  function Parsable(slices: seq<Slice>): seq<Slice> {
    if slices == [] then []
    else
      var s := slices[|slices| - 1];
      Parsable(slices[..|slices| - 1]) + if ParseSnssai(s.id).Some? then [s] else []
  }

  ghost predicate AreEntriesOf(slices: seq<Slice>, groups: map<string, Group>, es: seq<PolicyControl>) {
    |es| == |slices| && forall i :: 0 <= i < |es| ==> IsPolicyEntry(slices[i], groups, es[i])
  }

  ghost predicate IsPolicyView(slices: seq<Slice>, groups: map<string, Group>, view: seq<PolicyControl>) {
    exists es :: AreEntriesOf(Parsable(slices), groups, es) && IsSortOf(PolicyLess, es, view)
  }

  // ---------- IMSI QoS index ----------

  datatype ImsiQos = ImsiQos(uplink: string, downlink: string, qci: int32, arp: int32)
  datatype ImsiQosConfig = ImsiQosConfig(imsis: seq<string>, dnn: string, qos: seq<ImsiQos>)

  predicate QosLess(a: ImsiQosConfig, b: ImsiQosConfig) { StringLess(a.dnn, b.dnn) }

  function ImsiQosOf(d: IpDomain): Option<ImsiQos> {
    if d.qos.None? || d.qos.value.trafficClass.None? then None
    else
      var q := d.qos.value;
      Some(ImsiQos(Bitrate.ConvertToString(Bitrate.ToUint64(q.uplink)), Bitrate.ConvertToString(Bitrate.ToUint64(q.downlink)),
                   q.trafficClass.value.qci, q.trafficClass.value.arp))
  }

  /** Index entries of the domains of one group. */
  function GroupQos(imsis: seq<string>, domains: seq<IpDomain>): seq<ImsiQosConfig> {
    if domains == [] then []
    else
      var d := domains[|domains| - 1];
      var q := ImsiQosOf(d);
      GroupQos(imsis, domains[..|domains| - 1])
        + if q.Some? then [ImsiQosConfig(imsis, d.dnn, [q.value])] else []
  }

  /** Index entries when the groups are walked in the given order. */
  function QosEntries(groups: map<string, Group>, order: seq<string>): seq<ImsiQosConfig> {
    if order == [] then []
    else
      var last := order[|order| - 1];
      QosEntries(groups, order[..|order| - 1])
        + if last in groups then GroupQos(groups[last].imsis, groups[last].domains) else []
  }

  ghost predicate IsQosView(groups: map<string, Group>, view: seq<ImsiQosConfig>) {
    exists order :: Enumerates(order, groups.Keys) && IsSortOf(QosLess, QosEntries(groups, order), view)
  }

  /** The answer of the first matching index entry. */
  function FirstMatch(index: seq<ImsiQosConfig>, dnn: string, imsi: string): seq<ImsiQos> {
    if index == [] then []
    else if index[0].dnn == dnn && imsi in index[0].imsis then index[0].qos
    else FirstMatch(index[1..], dnn, imsi)
  }

  // ---------- the six views together ----------

  /** The six published fields, in the order in which syncInMemoryConfig assigns them. */
  datatype Config = Config(
    plmn: seq<Plmn>, plmnSnssai: seq<PlmnSnssai>, accessAndMobility: seq<AccessAndMobility>,
    sessionManagement: seq<SessionManagement>, policyControl: seq<PolicyControl>, imsiQos: seq<ImsiQosConfig>)

  const FIELDS := 6

  /** Field k of c is a view of these slices and groups. */
  ghost predicate FieldIs(k: nat, slices: seq<Slice>, groups: map<string, Group>, c: Config) {
    match k
    case 0 => IsPlmnView(slices, c.plmn)
    case 1 => IsPlmnSnssaiView(slices, c.plmnSnssai)
    case 2 => IsAmView(slices, c.accessAndMobility)
    case 3 => IsSessionView(slices, groups, c.sessionManagement)
    case 4 => IsPolicyView(slices, groups, c.policyControl)
    case _ => IsQosView(groups, c.imsiQos)
  }

  /** c differs from d in field k at most. */
  predicate OnlyFieldChanges(k: nat, c: Config, d: Config) {
    match k
    case 0 => d == c.(plmn := d.plmn)
    case 1 => d == c.(plmnSnssai := d.plmnSnssai)
    case 2 => d == c.(accessAndMobility := d.accessAndMobility)
    case 3 => d == c.(sessionManagement := d.sessionManagement)
    case 4 => d == c.(policyControl := d.policyControl)
    case _ => d == c.(imsiQos := d.imsiQos)
  }

  /** All six fields are views of one pair of lists. */
  ghost predicate IsProjection(slices: seq<Slice>, groups: map<string, Group>, c: Config) {
    forall k :: 0 <= k < FIELDS ==> FieldIs(k, slices, groups, c)
  }

  // ---------- stored documents ----------

  /** A stored document that decodes, or one that does not. */
  datatype Raw<T> = Good(value: T) | Bad

  function DecodeSlices(raw: seq<Raw<Slice>>): seq<Slice> {
    if raw == [] then []
    else
      var last := raw[|raw| - 1];
      DecodeSlices(raw[..|raw| - 1]) + if last.Good? then [last.value] else []
  }

  /** Groups by name; unreadable and nameless ones are skipped, a later one replaces an earlier one. */
  function DecodeGroups(raw: seq<Raw<Group>>): map<string, Group> {
    if raw == [] then map[]
    else
      var last := raw[|raw| - 1];
      var groups := DecodeGroups(raw[..|raw| - 1]);
      if last.Good? && last.value.name != "" then groups[last.value.name := last.value] else groups
  }
}
