/** The configuration records the handlers store, with the Go integer widths. */
module Models {
  import opened Prelude

  const TWO_TO_31: int := 0x8000_0000
  const TWO_TO_32: int := 0x1_0000_0000
  const TWO_TO_63: int := 0x8000_0000_0000_0000
  const TWO_TO_64: int := 0x1_0000_0000_0000_0000
  const MAX_INT32: int := TWO_TO_31 - 1
  const MAX_INT64: int := TWO_TO_63 - 1

  type int32 = x: int | -TWO_TO_31 <= x < TWO_TO_31
  type int64 = x: int | -TWO_TO_63 <= x < TWO_TO_63
  type uint64 = x: int | 0 <= x < TWO_TO_64

  datatype TrafficClass = TrafficClass(name: string, qci: int32, arp: int32, pdb: int32, pelr: int32)

  /** A rate profile; a nil traffic class is None. */
  datatype Qos = Qos(uplink: int64, downlink: int64, unit: string, trafficClass: Option<TrafficClass>)

  datatype IpDomain = IpDomain(
    dnn: string, ueIpPool: string, dnsPrimary: string, dnsSecondary: string, pcscfPrimary: string, mtu: int32,
    qos: Option<Qos>)

  datatype Group = Group(
    name: string, imsis: seq<string>, msisdns: seq<string>, siteInfo: string, ipDomainName: string, domains: seq<IpDomain>)

  datatype Rule = Rule(
    name: string, priority: int32, action: string, endpoint: string, protocol: int32, startPort: int32, endPort: int32,
    uplink: int32, downlink: int32, unit: string, trafficClass: TrafficClass, trigger: string)

  datatype Plmn = Plmn(mcc: string, mnc: string)

  datatype SliceId = SliceId(sst: string, sd: string)

  datatype Gnb = Gnb(name: string, tac: int32)

  /** A value of the free-form UPF object: text, a number, or anything else. */
  datatype Json = Text(text: string) | Number(number: real) | Other(json: string)

  datatype Slice = Slice(
    name: string, id: SliceId, groups: seq<string>, siteName: string, plmn: Plmn, gnbs: seq<Gnb>,
    upf: Option<map<string, Json>>, rules: seq<Rule>)
}
