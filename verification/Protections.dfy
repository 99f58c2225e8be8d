/** The iptables-based protections and the plan of each. */
module Protections {
  import opened Netfilter
  import opened Plans

  datatype Protection =
    | SynFlood | HttpFlood | Slowloris | IcmpFlood | PortScan | BogusTcp | ConnectionLimit
    | BogonFilter | FragmentProtection | IpOptions | UdpFlood | ProtocolFilter | DnsAmplification

  function DropEach(conds: seq<Match>): (rules: seq<Rule>)
    ensures forall r :: r in rules ==> r.target == Drop && r.cond in conds
  {
    seq(|conds|, i requires 0 <= i < |conds| => Rule(conds[i], Drop))
  }

  /** A protection chain drops on each of the conditions and ends in RETURN. */
  function Guard(chain: Chain, cond: Match, drops: seq<Match>): (p: Plan)
    ensures p.ChainPlan? && p.chain == chain && OnlyDrops(p.body)
    ensures forall r :: r in p.body && r.target.Drop? ==> r.cond in drops
  {
    ChainPlan(chain, DropEach(drops) + [Rule([], Return)], cond)
  }

  function Tail(drops: seq<Match>): (p: Plan)
    ensures p.DirectPlan? && forall r :: r in p.rules ==> r.target == Drop && r.cond in drops
  { DirectPlan(DropEach(drops), false, false) }

  /** What each protection refuses. */
  function Conds(p: Protection): seq<Match> {
    match p
    case SynFlood => [[Proto(Tcp), Syn, HashLimit(30, 10, "syn_flood")]]
    case HttpFlood => [
      [Proto(Tcp), DestPort(80), HashLimit(50, 100, "http_flood")],
      [Proto(Tcp), DestPort(443), HashLimit(50, 100, "https_flood")]]
    case Slowloris => [
      [Proto(Tcp), DestPort(80), ConnLimit(50)],
      [Proto(Tcp), DestPort(443), ConnLimit(50)]]
    case IcmpFlood => [[Proto(Icmp), EchoRequest]]
    case PortScan => [
      [Proto(Tcp), TcpFlags("ALL", "NONE")],
      [Proto(Tcp), TcpFlags("ALL", "ALL")],
      [Proto(Tcp), TcpFlags("ALL", "FIN,URG,PSH")],
      [Proto(Tcp), TcpFlags("SYN,RST", "SYN,RST")],
      [Proto(Tcp), TcpFlags("SYN,FIN", "SYN,FIN")]]
    case BogusTcp => [
      [CtState("INVALID")],
      [Proto(Tcp), NotSyn, CtState("NEW")]]
    case ConnectionLimit => [[Proto(Tcp), ConnLimitMask(100, 32)]]
    case BogonFilter => [
      [Source(0, 0, 0, 0, 8)], [Source(10, 0, 0, 0, 8)], [Source(100, 64, 0, 0, 10)],
      [Source(127, 0, 0, 0, 8)], [Source(169, 254, 0, 0, 16)], [Source(172, 16, 0, 0, 12)],
      [Source(192, 0, 0, 0, 24)], [Source(192, 0, 2, 0, 24)], [Source(192, 168, 0, 0, 16)],
      [Source(198, 18, 0, 0, 15)], [Source(198, 51, 100, 0, 24)], [Source(203, 0, 113, 0, 24)],
      [Source(224, 0, 0, 0, 4)], [Source(240, 0, 0, 0, 4)]]
    case FragmentProtection => [[Fragment]]
    case IpOptions => [[IpOption("ssrr")], [IpOption("lsrr")], [IpOption("rr")], [IpOption("ts")]]
    case UdpFlood => [[Proto(Udp), HashLimit(50, 100, "udp_flood")]]
    case ProtocolFilter => [[Proto(Sctp)], [Proto(Dccp)], [Proto(Gre)]]
    case DnsAmplification => [
      [Proto(Udp), DestPort(53), HashLimit(5, 10, "dns_amp")],
      [Proto(Tcp), DestPort(53), HashLimit(10, 20, "dns_amp_tcp")]]
  }

  const EchoAccepted: Rule := Rule([Proto(Icmp), EchoRequest, Limit(5, 10)], Accept)

  function PlanOf(p: Protection): Plan {
    match p
    case SynFlood => Guard(SYN_FLOOD, [Proto(Tcp), Syn], Conds(p))
    case HttpFlood => Guard(HTTP_FLOOD, [Proto(Tcp), MultiPort([80, 443])], Conds(p))
    case PortScan => Guard(PORT_SCAN, [], Conds(p))
    case BogonFilter => Guard(BOGON_FILTER, [], Conds(p))
    case UdpFlood => Guard(UDP_FLOOD, [Proto(Udp)], Conds(p))
    case IcmpFlood => DirectPlan([EchoAccepted] + DropEach(Conds(p)), false, false)
    case ConnectionLimit => DirectPlan([Rule(Conds(p)[0], Reject)], false, false)
    case BogusTcp => DirectPlan(DropEach(Conds(p)), true, false)
    case IpOptions => DirectPlan(DropEach(Conds(p)), false, true)
    case Slowloris => Tail(Conds(p))
    case FragmentProtection => Tail(Conds(p))
    case ProtocolFilter => Tail(Conds(p))
    case DnsAmplification => Tail(Conds(p))
  }

  lemma PlansAreValid(p: Protection)
    ensures PlanOf(p).Valid() && (!p.IcmpFlood? ==> PlanOf(p).Restrictive())
  {
  }

  /** Only icmp_flood decides about echo requests: what the others refuse begins with a test
      of something else. */
  lemma FirstTests(p: Protection, m: Match)
    requires !p.IcmpFlood? && m in Conds(p)
    ensures m != [] && m[0] !in {Proto(Icmp), EchoRequest, Limit(5, 10)}
  {
  }

  /** The rules of a protection that refuse. */
  ghost predicate Refuses(p: Protection, r: Rule) {
    match PlanOf(p)
    case ChainPlan(_, body, _) => r in body && r.target.Drop?
    case DirectPlan(rules, _, _) => r in rules
  }

  lemma RefusedConds(p: Protection, r: Rule)
    requires !p.IcmpFlood? && Refuses(p, r)
    ensures r.cond in Conds(p)
  {
  }

  lemma ChainsAreDistinct(p: Protection, q: Protection)
    requires PlanOf(p).ChainPlan? && PlanOf(q).ChainPlan? && PlanOf(p).chain == PlanOf(q).chain
    ensures p == q
  {
  }
}
