/** What the entries of the published views say about the stored slices and groups, field by field,
    and in which order they come. */
module ViewContents {
  import opened Prelude
  import opened Models
  import opened Views
  import opened ViewTheorems
  import opened Bitrate

  // ---------- policy control ----------

  /** The rate is left out if it is 0, and otherwise reads back cut down to whole units. */
  ghost predicate ShowsRate(rate: int32, shown: Option<string>) {
    && (shown.None? <==> rate == 0)
    && (rate > 0 ==> ReadRate(shown.value) == Some(ReadBackValue(rate)))
  }

  /** An endpoint that starts with 0.0.0.0 is published as any. */
  ghost predicate ShowsEndpoint(endpoint: string, shown: string) {
    shown == if |endpoint| >= 7 && endpoint[..7] == "0.0.0.0" then "any" else endpoint
  }

  /** The filter text: TCP (6) and UDP (17) by name and with their ports if one is set. */
  ghost predicate ShowsFlow(r: Rule, flow: string) {
    exists from :: ShowsEndpoint(r.endpoint, from) &&
      var word := if r.protocol == 6 then "tcp" else if r.protocol == 17 then "udp" else "ip";
      var ports := Itoa(r.startPort) + "-" + Itoa(r.endPort);
      if word == "ip" || (r.startPort == 0 && r.endPort == 0) then flow == "permit out " + word + " from " + from + " to assigned"
      else if SDF_COMP then flow == "permit out " + word + " from " + from + " " + ports + " to assigned"
      else flow == "permit out " + word + " from " + from + " to assigned " + ports
  }

  ghost predicate ShowsRule(r: Rule, e: PccRule) {
    && e.id == r.name && e.precedence == r.priority && (e.enabled <==> r.action != "deny")
    && e.qci == r.trafficClass.qci && e.arp == r.trafficClass.arp
    && ShowsRate(r.uplink, e.maxUplink) && ShowsRate(r.downlink, e.maxDownlink) && ShowsFlow(r, e.flow)
  }

  /** The same elements, each as often. */
  ghost predicate SameItems<T>(a: seq<T>, b: seq<T>) { multiset(a) == multiset(b) }

  /** The rules are published one for one, repetitions included; without any, one fixed rule is. */
  ghost predicate ShowsRules(rules: seq<Rule>, shown: seq<PccRule>) {
    if rules == [] then
      shown == [PccRule("DefaultRule", "permit out ip from any to assigned", true, 9, 1, None, None, 255)]
    else
      exists rs: seq<Rule> :: SameItems(rs, rules) && |rs| == |shown| && forall k :: 0 <= k < |rs| ==> ShowsRule(rs[k], shown[k])
  }

  /** Least precedence first, then by name. */
  ghost predicate RulesInOrder(shown: seq<PccRule>) {
    forall i, j :: 0 <= i < j < |shown| ==>
      && shown[i].precedence <= shown[j].precedence
      && (shown[i].precedence == shown[j].precedence ==> !StringLess(shown[j].id, shown[i].id))
  }

  ghost predicate InOrder(names: seq<string>) { forall i, j :: 0 <= i < j < |names| ==> !StringLess(names[j], names[i]) }

  /** The DNNs of the IP domains of all groups of the slice. */
  ghost predicate ShowsDnns(domains: seq<IpDomain>, shown: seq<string>) {
    exists ds: seq<IpDomain> :: SameItems(ds, domains) && |ds| == |shown| && forall k :: 0 <= k < |ds| ==> shown[k] == ds[k].dnn
  }

  ghost predicate ShowsPolicy(s: Slice, groups: map<string, Group>, e: PolicyControl) {
    && e.plmn == s.plmn && ParseSnssai(s.id) == Some(e.snssai)
    && ShowsRules(s.rules, e.rules) && RulesInOrder(e.rules)
    && ShowsDnns(DomainsOf(s.groups, groups), e.dnns) && InOrder(e.dnns)
  }

  /** ss lists the slices whose SST can be read, each as often as it is stored. */
  ghost predicate ListsReadable(slices: seq<Slice>, ss: seq<Slice>) {
    forall s :: multiset(ss)[s] == if ParseSnssai(s.id).Some? then multiset(slices)[s] else 0
  }

  /** The policy-control view has one entry for every slice whose SST can be read, and each shows
      its slice: every rule with its fields, and the DNNs. */
  lemma PolicyViewShows(slices: seq<Slice>, groups: map<string, Group>, view: seq<PolicyControl>) returns (ss: seq<Slice>)
    requires IsPolicyView(slices, groups, view)
    ensures ListsReadable(slices, ss) && |ss| == |view|
    ensures forall k :: 0 <= k < |view| ==> ShowsPolicy(ss[k], groups, view[k])
  {
    hide IsPolicyEntry, PolicyLess, ParseSnssai, ShowsPolicy, ListsReadable;
    var ps := Parsable(slices);
    var es :| AreEntriesOf(ps, groups, es) && IsSortOf(PolicyLess, es, view);
    var pairs := seq(|ps|, i requires 0 <= i < |ps| => (ps[i], es[i]));
    var slice, entry := (p: (Slice, PolicyControl)) => p.0, (p: (Slice, PolicyControl)) => p.1;
    assert Map(entry, pairs) == es && Map(slice, pairs) == ps;
    var order := Realign(entry, pairs, view);
    MapPermutation(slice, pairs, order);
    ss := Map(slice, order);
    ReadableListed(slices, ss);
    forall k | 0 <= k < |view| ensures ShowsPolicy(ss[k], groups, view[k]) {
      assert order[k] in multiset(order);
      assert order[k] in pairs;
      PolicyEntryShows(ss[k], groups, view[k]);
    }
  }

  lemma ReadableListed(slices: seq<Slice>, ss: seq<Slice>)
    requires multiset(ss) == multiset(Parsable(slices))
    ensures ListsReadable(slices, ss)
  {
    forall s { ParsableCount(slices, s); }
  }

  lemma PolicyEntryShows(s: Slice, groups: map<string, Group>, e: PolicyControl)
    requires IsPolicyEntry(s, groups, e)
    ensures ShowsPolicy(s, groups, e)
  {
    hide ParseSnssai, DomainsOf, UnsortedRules, ShowsRules, RulesInOrder, RuleLess;
    var ds := Realign((d: IpDomain) => d.dnn, DomainsOf(s.groups, groups), e.dnns);
    assert SameItems(ds, DomainsOf(s.groups, groups)) && |ds| == |e.dnns|;
    RulesShown(s, e.rules);
  }

  lemma RulesShown(s: Slice, rules: seq<PccRule>)
    requires IsSortOf(RuleLess, UnsortedRules(s), rules)
    ensures ShowsRules(s.rules, rules) && RulesInOrder(rules)
  {
    hide ShowsRule;
    if s.rules == [] {
      OneRule(rules);
    } else {
      var rs := Realign(PccRuleOf, s.rules, rules);
      assert SameItems(rs, s.rules) && |rs| == |rules|;
      forall k | 0 <= k < |rs| ensures ShowsRule(rs[k], rules[k]) { RuleShown(rs[k]); }
    }
    forall i, j | 0 <= i < j < |rules|
      ensures rules[i].precedence <= rules[j].precedence
      ensures rules[i].precedence == rules[j].precedence ==> !StringLess(rules[j].id, rules[i].id)
    {
      assert !RuleLess(rules[j], rules[i]);
    }
  }

  lemma OneRule(rules: seq<PccRule>)
    requires multiset(rules) == multiset([DefaultRule])
    ensures rules == [DefaultRule]
  {
    assert |rules| == |multiset(rules)| == 1;
    assert rules[0] in multiset(rules);
  }

  lemma RuleShown(r: Rule)
    ensures ShowsRule(r, PccRuleOf(r))
  {
    RateShown(r.uplink);
    RateShown(r.downlink);
    FlowShown(r);
  }

  lemma RateShown(rate: int32)
    ensures ShowsRate(rate, PrintedMaxRate(rate))
  {
    if rate > 0 { ReadBackIs(rate); }
  }

  lemma FlowShown(r: Rule)
    ensures ShowsFlow(r, FlowDescription(r))
  {
    hide Itoa;
    assert ShowsEndpoint(r.endpoint, if "0.0.0.0" <= r.endpoint then "any" else r.endpoint);
    assert "permit out " + "ip" + " from " == "permit out ip from ";
    assert "tcp"[0] != "ip"[0] && "udp"[0] != "ip"[0];
  }

  // ---------- session management ----------

  ghost predicate ShowsDomain(d: IpDomain, e: IpDomainInfo) {
    && e.dnn == d.dnn && e.dns == d.dnsPrimary && e.pool == d.ueIpPool && e.mtu == d.mtu
    && (e.pcscf == None <==> d.pcscfPrimary == "") && (e.pcscf.Some? ==> e.pcscf.value == d.pcscfPrimary)
  }

  /** A port is a decimal text or a number within 16 bits; anything else shows none. */
  ghost predicate ShowsPort(v: Json, port: Option<int32>) {
    match v
    case Text(t) =>
      && (forall n :: 0 <= n <= 65535 && t == FormatUint(n) ==> port == Some(n))
      && (port.Some? ==> AllDigits(t) && ParseUint(t) == port.value <= 65535)
      && (port.None? ==> !AllDigits(t) || ParseUint(t) > 65535)
    case Number(x) => if x < 0.0 || x > 65535.0 then port == None else port.Some? && port.value as real <= x < port.value as real + 1.0
    case Other(_) => port == None
  }

  /** A UPF is shown if it has a non-empty text as its name. */
  ghost predicate ShowsUpf(stored: Option<map<string, Json>>, shown: Option<Upf>) {
    if stored == None || "upf-name" !in stored.value || !stored.value["upf-name"].Text? || stored.value["upf-name"].text == ""
    then shown == None
    else
      && shown.Some? && Text(shown.value.hostname) == stored.value["upf-name"]
      && if "upf-port" in stored.value then ShowsPort(stored.value["upf-port"], shown.value.port) else shown.value.port == None
  }

  ghost predicate ShowsGnbs(gnbs: seq<Gnb>, names: seq<string>) {
    exists gs: seq<Gnb> :: SameItems(gs, gnbs) && |gs| == |names| && forall k :: 0 <= k < |gs| ==> names[k] == gs[k].name
  }

  ghost predicate ShowsDomains(domains: seq<IpDomain>, shown: seq<IpDomainInfo>) {
    |shown| == |domains| && forall k :: 0 <= k < |shown| ==> ShowsDomain(domains[k], shown[k])
  }

  ghost predicate ShowsSession(s: Slice, groups: map<string, Group>, e: SessionManagement) {
    && e.sliceName == s.name && e.plmn == s.plmn && ParseSnssai(s.id) == Some(e.snssai)
    && ShowsDomains(DomainsOf(s.groups, groups), e.ipDomains)
    && ShowsUpf(s.upf, e.upf) && ShowsGnbs(s.gnbs, e.gnbNames) && InOrder(e.gnbNames)
  }

  /** The session view has one entry for every slice whose SST can be read, and each shows its
      slice: the IP domains in the order of the groups, the UPF, and the sorted gNB names. */
  lemma SessionViewShows(slices: seq<Slice>, groups: map<string, Group>, view: seq<SessionManagement>) returns (ss: seq<Slice>)
    requires IsSessionView(slices, groups, view)
    ensures ListsReadable(slices, ss) && |ss| == |view|
    ensures forall k :: 0 <= k < |view| ==> ShowsSession(ss[k], groups, view[k])
  {
    hide ParseSnssai, ShowsSession, ListsReadable, Session;
    var ps, es := Parsable(slices), Sessions(slices, groups);
    SessionsOfReadable(slices, groups);
    var pairs := seq(|ps|, i requires 0 <= i < |ps| => (ps[i], es[i]));
    var slice, entry := (p: (Slice, SessionManagement)) => p.0, (p: (Slice, SessionManagement)) => p.1;
    assert Map(entry, pairs) == es && Map(slice, pairs) == ps;
    var order := Realign(entry, pairs, view);
    MapPermutation(slice, pairs, order);
    ss := Map(slice, order);
    ReadableListed(slices, ss);
    forall k | 0 <= k < |view| ensures ShowsSession(ss[k], groups, view[k]) {
      assert order[k] in multiset(order);
      assert order[k] in pairs;
      SessionShows(ss[k], groups, view[k]);
    }
  }

  lemma {:induction false} SessionsOfReadable(slices: seq<Slice>, groups: map<string, Group>)
    ensures |Sessions(slices, groups)| == |Parsable(slices)|
    ensures forall k :: 0 <= k < |Parsable(slices)| ==> Session(Parsable(slices)[k], groups) == Some(Sessions(slices, groups)[k])
  {
    hide ParseSnssai;
    if slices != [] { SessionsOfReadable(slices[..|slices| - 1], groups); }
  }

  lemma SessionShows(s: Slice, groups: map<string, Group>, e: SessionManagement)
    requires Session(s, groups) == Some(e)
    ensures ShowsSession(s, groups, e)
  {
    hide ParseSnssai, DomainsOf, UpfOf, ShowsUpf;
    StringOrderIsWeak();
    InsertionSortSorts(StringLess, GnbNames(s.gnbs));
    var gs := Realign((g: Gnb) => g.name, s.gnbs, e.gnbNames);
    assert SameItems(gs, s.gnbs) && |gs| == |e.gnbNames|;
    UpfShown(s.upf);
  }

  lemma UpfShown(upf: Option<map<string, Json>>)
    ensures ShowsUpf(upf, UpfOf(upf))
  {
    hide PortOf;
    if upf.Some? && "upf-port" in upf.value { PortShown(upf.value["upf-port"]); }
  }

  lemma PortShown(v: Json)
    ensures ShowsPort(v, PortOf(v))
  {
    if v.Text? {
      forall n | 0 <= n <= 65535 && v.text == FormatUint(n) ensures PortOf(v) == Some(n) { ParseFormatted(n); }
    }
  }

  // ---------- the groups of a slice ----------

  /** The IP domains of a slice are those of its groups, group after group; a group that is not
      stored has none. */
  lemma {:induction false} DomainsOfGroups(names: seq<string>, more: seq<string>, name: string, groups: map<string, Group>)
    ensures DomainsOf(names + more, groups) == DomainsOf(names, groups) + DomainsOf(more, groups)
    ensures DomainsOf([name], groups) == if name in groups then groups[name].domains else []
  {
    assert [name][..0] == [] && DomainsOf([], groups) == [];
    if more == [] {
      assert names + more == names;
    } else {
      assert (names + more)[..|names + more| - 1] == names + more[..|more| - 1];
      DomainsOfGroups(names, more[..|more| - 1], name, groups);
    }
  }

  // ---------- what can be read of an SST ----------

  function Signed(sign: string, digits: string): int
    requires AllDigits(digits)
  {
    var n: int := ParseUint(digits);
    if sign == "-" then -n else n
  }

  /** A slice id parses if and only if its SST is a decimal number, with or without a sign, of at
      most 64 bits; the SST shown is its value cut down to 32 bits, and an empty SD is none. */
  lemma ParsedSnssai(id: SliceId, sign: string, digits: string)
    requires id.sst == sign + digits && sign in {"", "+", "-"} && AllDigits(digits)
    ensures ParseSnssai(id).Some? <==> -0x8000_0000_0000_0000 <= Signed(sign, digits) < 0x8000_0000_0000_0000
    ensures ParseSnssai(id).Some? ==> exists k :: ParseSnssai(id).value.sst == Signed(sign, digits) + k * 0x1_0000_0000
    ensures ParseSnssai(id).Some? ==> ParseSnssai(id).value.sd == if id.sd == "" then None else Some(id.sd)
  {
    var v := Signed(sign, digits);
    if sign == "" {
      assert id.sst == digits && digits[0] in digits;
    } else {
      assert id.sst[1..] == digits && id.sst[0] == sign[0];
    }
    if -TWO_TO_63 <= v < TWO_TO_63 {
      assert ParseInt64(id.sst) == Some(v);
      var k := -(v / TWO_TO_32) - if v % TWO_TO_32 >= TWO_TO_31 then 1 else 0;
      assert Truncate32(v) == v + k * TWO_TO_32;
    }
  }

  lemma ParsedOnly(id: SliceId) returns (sign: string, digits: string)
    requires ParseSnssai(id).Some?
    ensures id.sst == sign + digits && sign in {"", "+", "-"} && AllDigits(digits)
  {
    if id.sst[0] == '-' || id.sst[0] == '+' {
      sign, digits := [id.sst[0]], id.sst[1..];
      assert sign == "-" || sign == "+";
    } else {
      sign, digits := "", id.sst;
    }
  }

  /** TACs and ports are printed in decimal, with a sign if negative. */
  lemma PrintedInt(n: int)
    requires -TWO_TO_63 <= n < TWO_TO_63
    ensures ParseInt64(Itoa(n)) == Some(n) && (Itoa(n)[0] == '-' <==> n < 0)
  {
    hide FormatUint, ParseUint;
    var m: nat := if n < 0 then -n else n;
    var digits := FormatUint(m);
    ParseFormatted(m);
    assert digits[0] in digits;
    if n < 0 { assert Itoa(n)[1..] == digits; }
  }

  // ---------- order ----------

  ghost predicate PlmnsInOrder(p: Plmn, q: Plmn) {
    StringLess(p.mcc, q.mcc) || (p.mcc == q.mcc && (StringLess(p.mnc, q.mnc) || p.mnc == q.mnc))
  }

  /** Least SST first; of two equal ones the one without SD first, then by SD. */
  ghost predicate SnssaisInOrder(x: Snssai, y: Snssai) {
    x.sst < y.sst
    || (x.sst == y.sst && (x.sd.None? || (y.sd.Some? && (x.sd == y.sd || StringLess(x.sd.value, y.sd.value)))))
  }

  ghost predicate SlotsInOrder(p: Plmn, x: Snssai, q: Plmn, y: Snssai) {
    PlmnsInOrder(p, q) && (p == q ==> SnssaisInOrder(x, y))
  }

  /** All six views come in increasing order: by PLMN, then S-NSSAI, by slice name, or by DNN. */
  lemma ViewsAreInOrder(slices: seq<Slice>, groups: map<string, Group>, c: Config)
    requires IsProjection(slices, groups, c)
    ensures forall i, j :: 0 <= i < j < |c.plmn| ==> PlmnsInOrder(c.plmn[i], c.plmn[j])
    ensures forall i, j :: 0 <= i < j < |c.plmnSnssai| ==> PlmnsInOrder(c.plmnSnssai[i].plmn, c.plmnSnssai[j].plmn)
    ensures forall e :: e in c.plmnSnssai ==> forall i, j :: 0 <= i < j < |e.snssais| ==> SnssaisInOrder(e.snssais[i], e.snssais[j])
    ensures forall i, j :: 0 <= i < j < |c.accessAndMobility| ==>
              SlotsInOrder(c.accessAndMobility[i].plmn, c.accessAndMobility[i].snssai,
                           c.accessAndMobility[j].plmn, c.accessAndMobility[j].snssai)
    ensures forall i, j :: 0 <= i < j < |c.sessionManagement| ==>
              !StringLess(c.sessionManagement[j].sliceName, c.sessionManagement[i].sliceName)
    ensures forall i, j :: 0 <= i < j < |c.policyControl| ==>
              SlotsInOrder(c.policyControl[i].plmn, c.policyControl[i].snssai, c.policyControl[j].plmn, c.policyControl[j].snssai)
    ensures forall i, j :: 0 <= i < j < |c.imsiQos| ==> !StringLess(c.imsiQos[j].dnn, c.imsiQos[i].dnn)
  {
    hide FirstPlmns, IdsByPlmn, ListsSnssais, AmEntries, Sessions, QosEntries, AreEntriesOf, PlmnsInOrder, SnssaisInOrder, SlotsInOrder,
         PlmnLess, SnssaiLess, PlmnThenSnssaiLess, StringLess, ParsableKeys, TacsByKey, Parsable;
    assert FieldIs(0, slices, groups, c) && FieldIs(1, slices, groups, c) && FieldIs(2, slices, groups, c);
    assert FieldIs(3, slices, groups, c) && FieldIs(4, slices, groups, c) && FieldIs(5, slices, groups, c);
    forall i, j | 0 <= i < j < |c.plmn| ensures PlmnsInOrder(c.plmn[i], c.plmn[j]) { PlmnNotAfter(c.plmn[i], c.plmn[j]); }
    forall i, j | 0 <= i < j < |c.plmnSnssai| ensures PlmnsInOrder(c.plmnSnssai[i].plmn, c.plmnSnssai[j].plmn) {
      PlmnBefore(c.plmnSnssai[i].plmn, c.plmnSnssai[j].plmn);
    }
    forall e, i, j | e in c.plmnSnssai && 0 <= i < j < |e.snssais| ensures SnssaisInOrder(e.snssais[i], e.snssais[j]) {
      assert IsSnssaiEntry(IdsByPlmn(slices), e);
      SnssaiNotAfter(e.snssais[i], e.snssais[j]);
    }
    forall i, j | 0 <= i < j < |c.accessAndMobility|
      ensures SlotsInOrder(c.accessAndMobility[i].plmn, c.accessAndMobility[i].snssai,
                           c.accessAndMobility[j].plmn, c.accessAndMobility[j].snssai)
    {
      assert !AmLess(c.accessAndMobility[j], c.accessAndMobility[i]);
      SlotNotAfter(c.accessAndMobility[i].plmn, c.accessAndMobility[i].snssai, c.accessAndMobility[j].plmn, c.accessAndMobility[j].snssai);
    }
    forall i, j | 0 <= i < j < |c.policyControl|
      ensures SlotsInOrder(c.policyControl[i].plmn, c.policyControl[i].snssai, c.policyControl[j].plmn, c.policyControl[j].snssai)
    {
      assert !PolicyLess(c.policyControl[j], c.policyControl[i]);
      SlotNotAfter(c.policyControl[i].plmn, c.policyControl[i].snssai, c.policyControl[j].plmn, c.policyControl[j].snssai);
    }
    assert forall i, j :: 0 <= i < j < |c.sessionManagement| ==> !SessionLess(c.sessionManagement[j], c.sessionManagement[i]);
    assert forall i, j :: 0 <= i < j < |c.imsiQos| ==> !QosLess(c.imsiQos[j], c.imsiQos[i]);
  }

  lemma PlmnNotAfter(p: Plmn, q: Plmn)
    requires !PlmnLess(q, p)
    ensures PlmnsInOrder(p, q)
  {
    StringLessTotal(p.mcc, q.mcc);
    StringLessTotal(p.mnc, q.mnc);
  }

  lemma PlmnBefore(p: Plmn, q: Plmn)
    requires PlmnLess(p, q)
    ensures PlmnsInOrder(p, q)
  {
  }

  lemma SnssaiNotAfter(x: Snssai, y: Snssai)
    requires !SnssaiLess(y, x)
    ensures SnssaisInOrder(x, y)
  {
    StringLessTotal(SdText(x), SdText(y));
  }

  lemma SlotNotAfter(p: Plmn, x: Snssai, q: Plmn, y: Snssai)
    requires !PlmnThenSnssaiLess((q, y), (p, x))
    ensures SlotsInOrder(p, x, q, y)
  {
    PlmnThenSnssaiIsLexicographic((q, y), (p, x));
    PlmnNotAfter(p, q);
    if p == q { SnssaiNotAfter(x, y); }
  }

  // ---------- stored documents ----------

  /** Documents that do not decode are left out of the slices, the others keep their order. */
  lemma {:induction false} DecodedSlices(raw: seq<Raw<Slice>>, more: seq<Raw<Slice>>, x: Raw<Slice>)
    ensures DecodeSlices(raw + more) == DecodeSlices(raw) + DecodeSlices(more)
    ensures DecodeSlices([x]) == if x.Bad? then [] else [x.value]
  {
    assert [x][..0] == [] && DecodeSlices([]) == [];
    if more == [] {
      assert raw + more == raw;
    } else {
      assert (raw + more)[..|raw + more| - 1] == raw + more[..|more| - 1];
      DecodedSlices(raw, more[..|more| - 1], x);
    }
  }

  /** Documents that decode and have a name stand for that name, later ones instead of earlier ones. */
  lemma {:induction false} DecodedGroups(raw: seq<Raw<Group>>, more: seq<Raw<Group>>, x: Raw<Group>)
    ensures DecodeGroups(raw + more) == DecodeGroups(raw) + DecodeGroups(more)
    ensures DecodeGroups([x]) == if x.Bad? || x.value.name == "" then map[] else map[x.value.name := x.value]
  {
    assert [x][..0] == [] && DecodeGroups([]) == map[];
    if more == [] {
      assert raw + more == raw;
    } else {
      assert (raw + more)[..|raw + more| - 1] == raw + more[..|more| - 1];
      DecodedGroups(raw, more[..|more| - 1], x);
    }
  }
}
