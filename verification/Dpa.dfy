/** The data-plane abstraction's object types, keys and status codes. */
module Dpa {
  import opened Bytes

  datatype Status =
    | Ok | InvalidArg | NotFound | Exists | NoMemory | NotSupported | Retry | BackendIo | TxTimeout

  datatype ObjType =
    | Invalid | Iface | Vlan | Vrf | Route | NextHop | NhGroup | Acl | Qos | MplsLsp
    | Tunnel | Evpn | Multicast | Bfd | QosBind

  /** The value of the enumerator in danos_obj_type_t. */
  function Code(t: ObjType): nat {
    match t
    case Invalid => 0
    case Iface => 1
    case Vlan => 2
    case Vrf => 3
    case Route => 4
    case NextHop => 5
    case NhGroup => 6
    case Acl => 7
    case Qos => 8
    case MplsLsp => 9
    case Tunnel => 10
    case Evpn => 11
    case Multicast => 12
    case Bfd => 13
    case QosBind => 14
  }

  datatype Key = Key(objType: ObjType, id: nat)

  // ---- object contents ------------------------------------------------------------

  datatype Af = Unspec | Ipv4 | Ipv6

  type Address = s: seq<byte> | |s| == 16 witness seq(16, _ => 0)

  datatype IpAddr = IpAddr(af: Af, addr: Address)
  datatype Prefix = Prefix(ip: IpAddr, len: nat)

  const FLAG_BLACKHOLE: nat := 1

  datatype RouteData = RouteData(vrf: nat, prefix: Prefix, proto: nat, adminDistance: nat, metric: nat,
                                 nhgroupId: nat, flags: nat)
  {
    predicate Blackhole() { flags % 2 == FLAG_BLACKHOLE }
  }

  datatype NextHopData = NextHopData(id: nat, gateway: IpAddr, ifindex: nat, weight: nat, flags: nat, labels: seq<nat>)

  /** A group has room for 64 members; `count` is what the object claims. */
  type Members = s: seq<nat> | |s| == 64 witness seq(64, _ => 0)
  datatype GroupData = GroupData(id: nat, count: nat, members: Members, flags: nat)
  {
    function Size(): (n: nat) ensures n <= 64 { if count > 64 then 64 else count }
  }

  /** `rest` stands for the fields the pipeline copies without looking at them. */
  datatype IfaceData = IfaceData(ifindex: nat, adminUp: bool, ipv4: Prefix, ipv6: Prefix, rest: seq<byte>)
  datatype VrfData = VrfData(vrfId: nat, rest: seq<byte>)

  /** The blob of an object: the struct its type calls for, or bytes of another size. */
  datatype Object =
    | IfaceObj(iface: IfaceData) | VrfObj(vrf: VrfData) | RouteObj(route: RouteData)
    | NextHopObj(nh: NextHopData) | GroupObj(group: GroupData) | RawObj(bytes: seq<byte>)

  predicate WellTyped(k: Key, o: Object) {
    match o
    case IfaceObj(_) => k.objType == Iface
    case VrfObj(_) => k.objType == Vrf
    case RouteObj(_) => k.objType == Route
    case NextHopObj(_) => k.objType == NextHop
    case GroupObj(_) => k.objType == NhGroup
    case RawObj(_) => true
  }

  type Objects = map<Key, Object>

  function GetGroup(d: Objects, id: nat): Option<GroupData> {
    var k := Key(NhGroup, id);
    if k in d && d[k].GroupObj? then Some(d[k].group) else None
  }

  function GetNextHop(d: Objects, id: nat): Option<NextHopData> {
    var k := Key(NextHop, id);
    if k in d && d[k].NextHopObj? then Some(d[k].nh) else None
  }
}
