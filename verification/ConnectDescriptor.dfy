/**
 What a descriptor means (descriptor_parser.cpp) and the descriptor a connect sends (connect_descriptor.cpp): the
 parser, given what the builder writes, returns the address, the database and the options it was written from.
 */
module ConnectDescriptor {
  import opened Protocol
  import opened Characters
  import opened DescriptorText

  const MAX_CONNECT_ADDRESSES: nat := 16
  const MAX_CONNECT_RETRY_COUNT: nat := 100
  const MAX_CONNECT_RETRY_DELAY_SECONDS: nat := 3600
  const MAX_CONNECT_BUDGET_SECONDS: nat := 3600
  const MAX_TRANSPORT_SECONDS: nat := 3600
  const DEFAULT_PORT: nat := 1521

  // the keys a connect string is written with
  const PROTOCOL := "PROTOCOL"
  const HOST := "HOST"
  const PORT := "PORT"
  const ADDRESS := "ADDRESS"
  const CONNECT_DATA := "CONNECT_DATA"
  const SERVICE_NAME := "SERVICE_NAME"
  const SID := "SID"
  const INSTANCE_NAME := "INSTANCE_NAME"
  const SERVER := "SERVER"
  const DESCRIPTION := "DESCRIPTION"
  const DESCRIPTION_LIST := "DESCRIPTION_LIST"
  const FAILOVER := "FAILOVER"
  const LOAD_BALANCE := "LOAD_BALANCE"

  datatype Transport = Tcp | Tcps

  datatype Address = Address(host: string, port: nat, protocol: Transport)

  datatype AddressList = AddressList(addresses: seq<Address>, failover: bool, loadBalance: bool)

  /** What CONNECT_DATA says; a name that is not given is empty. */
  datatype Database = Database(service: string, sid: string, instance: string, server: string)

  datatype Timing = Timing(retryCount: Option<nat>, retryDelay: Option<nat>, connect: Option<nat>, transport: Option<nat>)

  /** What SECURITY says. */
  datatype Security = Security(certDn: string, dnMatch: bool)

  datatype Parsed = Parsed(
    endpoints: seq<Address>, lists: seq<AddressList>, failover: bool, loadBalance: bool,
    database: Database, timing: Timing, security: Security)

  function Flattened(lists: seq<AddressList>): seq<Address> {
    if lists == [] then [] else lists[0].addresses + Flattened(lists[1..])
  }

  lemma {:induction false} FlattenedJoins(a: seq<AddressList>, b: seq<AddressList>)
    ensures Flattened(a + b) == Flattened(a) + Flattened(b)
  {
    if a == [] {
      assert a + b == b;
    } else {
      assert (a + b)[1..] == a[1..] + b;
      FlattenedJoins(a[1..], b);
    }
  }

  // ----- scalars

  function Named(children: seq<Node>, key: string): seq<Node> {
    if children == [] then []
    else (if children[0].key == key then [children[0]] else []) + Named(children[1..], key)
  }

  /** A scalar that may be absent and may not stand twice. */
  function OptionalScalar(node: Node, key: string): Result<Option<string>> {
    var found := Named(node.children, key);
    if found == [] then Ok(None)
    else if |found| > 1 || found[0].children != [] || found[0].value == "" then Err(Malformed)
    else Ok(Some(found[0].value))
  }

  function RequiredScalar(node: Node, key: string): Result<string> {
    var value :- OptionalScalar(node, key);
    if value.None? then Err(Malformed) else Ok(value.value)
  }

  function RequiredContainer(node: Node, key: string): Result<Node> {
    var found := Named(node.children, key);
    if |found| != 1 || found[0].value != "" then Err(Malformed) else Ok(found[0])
  }

  function SwitchOf(value: string): Result<bool> {
    if Upper(value) in {"ON", "YES", "TRUE"} then Ok(true)
    else if Upper(value) in {"OFF", "NO", "FALSE"} then Ok(false)
    else Err(Malformed)
  }

  function OptionalSwitch(node: Node, key: string, default: bool): Result<bool> {
    var value :- OptionalScalar(node, key);
    if value.None? then Ok(default) else SwitchOf(value.value)
  }

  /** The number a run of digits writes, read from the left: an error at the first character that is not a digit
      or that takes it past the bound. */
  function NumberUpTo(value: string, maximum: nat, tooLarge: ErrorKind): (n: Result<nat>)
    ensures n.Ok? ==> n.value <= maximum
  {
    if value == "" then Ok(0)
    else
      var before :- NumberUpTo(value[..|value| - 1], maximum, tooLarge);
      var last := value[|value| - 1];
      if !Digit(last) then Err(Malformed)
      else
        var n := before * 10 + (last as int - '0' as int);
        if n > maximum then Err(tooLarge) else Ok(n)
  }

  lemma NumberNext(value: string, i: nat, maximum: nat, tooLarge: ErrorKind, before: nat)
    requires i < |value| && NumberUpTo(value[..i], maximum, tooLarge) == Ok(before)
    ensures NumberUpTo(value[..i + 1], maximum, tooLarge)
         == if !Digit(value[i]) then Err(Malformed)
            else if before * 10 + (value[i] as int - '0' as int) > maximum then Err(tooLarge)
            else Ok(before * 10 + (value[i] as int - '0' as int))
  {
    assert value[..i + 1][..i] == value[..i];
  }

  lemma NoDigits(maximum: nat, tooLarge: ErrorKind)
    ensures NumberUpTo("", maximum, tooLarge) == Ok(0)
  {
  }

  /** The loop over the digits. */
  method ParseNumber(value: string, maximum: nat, tooLarge: ErrorKind) returns (number: Result<nat>)
    ensures number == NumberUpTo(value, maximum, tooLarge)
  {
    hide NumberUpTo;
    var result: nat := 0;
    assert value[..0] == "";
    NoDigits(maximum, tooLarge);
    for i := 0 to |value|
      invariant NumberUpTo(value[..i], maximum, tooLarge) == Ok(result)
    {
      NumberNext(value, i, maximum, tooLarge, result);
      if !Digit(value[i]) {
        NumberFails(value, i + 1, maximum, tooLarge);
        return Err(Malformed);
      }
      result := result * 10 + (value[i] as int - '0' as int);
      if result > maximum {
        NumberFails(value, i + 1, maximum, tooLarge);
        return Err(tooLarge);
      }
    }
    assert value[..|value|] == value;
    return Ok(result);
  }

  lemma {:induction false} NumberFails(value: string, i: nat, maximum: nat, tooLarge: ErrorKind)
    requires i <= |value| && NumberUpTo(value[..i], maximum, tooLarge).Err?
    ensures NumberUpTo(value, maximum, tooLarge) == NumberUpTo(value[..i], maximum, tooLarge)
    decreases |value| - i
  {
    if i == |value| {
      assert value[..i] == value;
    } else {
      assert value[..i + 1][..i] == value[..i];
      NumberFails(value, i + 1, maximum, tooLarge);
    }
  }

  function PortOf(value: string): Result<nat> {
    var n :- NumberUpTo(value, 65535, Malformed);
    if n == 0 then Err(Malformed) else Ok(n)
  }

  /** Whole seconds, or a count; a value in milliseconds is refused by name. */
  function SecondsOf(value: string, maximum: nat): Result<nat> {
    if |value| > 2 && Upper(value)[|value| - 2..] == "MS" then Err(Unsupported)
    else NumberUpTo(value, maximum, LimitExceeded)
  }

  function OptionalSeconds(node: Node, key: string, maximum: nat, positive: bool): Result<Option<nat>> {
    var value :- OptionalScalar(node, key);
    if value.None? then Ok(None)
    else
      var n :- SecondsOf(value.value, maximum);
      if positive && n == 0 then Err(Malformed) else Ok(Some(n))
  }

  // ----- addresses

  function TransportOf(value: string): Result<Transport> {
    if Upper(value) == "TCP" then Ok(Tcp) else if Upper(value) == "TCPS" then Ok(Tcps) else Err(Unsupported)
  }

  predicate OnlyKeys(children: seq<Node>, keys: set<string>) {
    forall i :: 0 <= i < |children| ==> children[i].key in keys
  }

  const ADDRESS_KEYS := {PROTOCOL, HOST, PORT, "SEND_BUF_SIZE", "RECV_BUF_SIZE"}

  function AddressOf(node: Node): Result<Address> {
    if !OnlyKeys(node.children, ADDRESS_KEYS) then Err(Unsupported)
    else
      var protocol :- OptionalScalar(node, PROTOCOL);
      var transport :- if protocol.None? then Ok(Tcp) else TransportOf(protocol.value);
      var host :- RequiredScalar(node, HOST);
      var port :- OptionalScalar(node, PORT);
      var number :- if port.None? then Ok(DEFAULT_PORT) else PortOf(port.value);
      Ok(Address(host, number, transport))
  }

  const SOURCE_ROUTE := "SOURCE_ROUTE"

  function RefusesSourceRoute(node: Node): Result<bool> {
    var on :- OptionalSwitch(node, SOURCE_ROUTE, false);
    if on then Err(Unsupported) else Ok(false)
  }

  /** The addresses of an ADDRESS_LIST, in order. */
  function ListAddresses(children: seq<Node>): Result<seq<Address>> {
    if children == [] then Ok([])
    else if children[0].key == ADDRESS then
      var first :- AddressOf(children[0]);
      var rest :- ListAddresses(children[1..]);
      Ok([first] + rest)
    else if children[0].key in {FAILOVER, LOAD_BALANCE, SOURCE_ROUTE, "ENABLE"} then ListAddresses(children[1..])
    else Err(Unsupported)
  }

  function ListOf(node: Node): (r: Result<AddressList>)
    ensures r.Ok? ==> r.value.addresses != []
  {
    var addresses :- ListAddresses(node.children);
    if addresses == [] then Err(Malformed)
    else
      var _ :- RefusesSourceRoute(node);
      var failover :- OptionalSwitch(node, FAILOVER, true);
      var loadBalance :- OptionalSwitch(node, LOAD_BALANCE, false);
      Ok(AddressList(addresses, failover, loadBalance))
  }

  const IGNORED_KEYS :=
    {"ENABLE", "EXPIRE_TIME", "SDU", "TDU", "RECV_BUF_SIZE", "SEND_BUF_SIZE", "TYPE_OF_SERVICE", "USE_SNI"}
  const DESCRIPTION_KEYS :=
    {CONNECT_DATA, "SECURITY", FAILOVER, LOAD_BALANCE, "RETRY_COUNT", "RETRY_DELAY", "CONNECT_TIMEOUT",
     "TRANSPORT_CONNECT_TIMEOUT", SOURCE_ROUTE}

  /** The lists of a DESCRIPTION: its ADDRESS_LISTs, and its own ADDRESSes in one list where the first of them is. */
  datatype Lists = Lists(lists: seq<AddressList>, implicitAt: Option<nat>)

  ghost predicate ListsFit(lists: Lists) {
    lists.implicitAt.Some? ==> lists.implicitAt.value < |lists.lists|
  }

  function TakeAddress(so: Lists, address: Address): (r: Lists)
    requires ListsFit(so)
    ensures ListsFit(r)
  {
    if so.implicitAt.None? then Lists(so.lists + [AddressList([address], true, false)], Some(|so.lists|))
    else
      var at := so.implicitAt.value;
      so.(lists := so.lists[at := so.lists[at].(addresses := so.lists[at].addresses + [address])])
  }

  function TakeChildren(so: Lists, children: seq<Node>): (r: Result<Lists>)
    requires ListsFit(so)
    ensures r.Ok? ==> ListsFit(r.value)
    decreases |children|
  {
    if children == [] then Ok(so)
    else if children[0].key == ADDRESS then
      var address :- AddressOf(children[0]);
      TakeChildren(TakeAddress(so, address), children[1..])
    else if children[0].key == "ADDRESS_LIST" then
      var list :- ListOf(children[0]);
      TakeChildren(so.(lists := so.lists + [list]), children[1..])
    else if children[0].key in DESCRIPTION_KEYS + IGNORED_KEYS then TakeChildren(so, children[1..])
    else Err(Unsupported)
  }

  // ----- CONNECT_DATA

  function ServerOf(value: string): Result<string> {
    if Upper(value) in {"DEDICATED", "SHARED"} then Ok(Upper(value)) else Err(Unsupported)
  }

  function DatabaseOf(node: Node): Result<Database> {
    if !OnlyKeys(node.children, {SERVICE_NAME, INSTANCE_NAME, SERVER, SID}) then Err(Unsupported)
    else
      var service :- OptionalScalar(node, SERVICE_NAME);
      var sid :- OptionalScalar(node, SID);
      if service.Some? && sid.Some? then Err(Malformed)
      else if service.None? && sid.None? then Err(Malformed)
      else
        var instance :- OptionalScalar(node, INSTANCE_NAME);
        var server :- OptionalScalar(node, SERVER);
        var serverType :- if server.None? then Ok("") else ServerOf(server.value);
        Ok(Database(if service.Some? then service.value else "", if sid.Some? then sid.value else "",
                    if instance.Some? then instance.value else "", serverType))
  }

  // ----- SECURITY

  function TakeSettings(so: Security, settings: seq<Node>): Result<Security>
    decreases |settings|
  {
    if settings == [] then Ok(so)
    else if settings[0].key == "SSL_SERVER_CERT_DN" then
      if so.certDn != "" then Err(Malformed) else TakeSettings(so.(certDn := settings[0].value), settings[1..])
    else if settings[0].key == "SSL_SERVER_DN_MATCH" then
      TakeSettings(so.(dnMatch := Upper(settings[0].value) !in {"NO", "FALSE"}), settings[1..])
    else TakeSettings(so, settings[1..])
  }

  function TakeSecurity(so: Security, children: seq<Node>): Result<Security>
    decreases |children|
  {
    if children == [] then Ok(so)
    else if children[0].key != "SECURITY" then TakeSecurity(so, children[1..])
    else
      var more :- TakeSettings(so, children[0].children);
      TakeSecurity(more, children[1..])
  }

  // ----- what may be connected to

  predicate NameCharacter(c: char) {
    Digit(c) || Letter(c) || c == '.' || c == '_' || c == '-'
  }

  predicate IsDescriptorAtom(value: string) {
    value != "" && forall i :: 0 <= i < |value| ==> NameCharacter(value[i])
  }

  /** Text that inet_pton may take for an IPv6 address. */
  predicate Ipv6Character(c: char) {
    Digit(c) || 'a' <= c <= 'f' || 'A' <= c <= 'F' || c == ':' || c == '.'
  }

  /** The platform's test for an IPv6 literal. */
  datatype Platform = Platform(isIpv6: string -> bool)

  ghost predicate Sensible(platform: Platform) {
    forall text: string :: platform.isIpv6(text) ==> text != "" && forall i :: 0 <= i < |text| ==> Ipv6Character(text[i])
  }

  function ValidAddress(address: Address, platform: Platform): Result<bool> {
    if |address.host| > 255 then Err(LimitExceeded)
    else if !IsDescriptorAtom(address.host) && !platform.isIpv6(address.host) then Err(Malformed)
    else if address.port == 0 then Err(Malformed)
    else Ok(true)
  }

  function ValidDatabase(database: Database): Result<bool> {
    if database.instance != "" && !IsDescriptorAtom(database.instance) then Err(Malformed)
    else if database.server != "" && Upper(database.server) !in {"DEDICATED", "SHARED"} then Err(Unsupported)
    else if (database.service == "") == (database.sid == "") then Err(Malformed)
    else if !IsDescriptorAtom(if database.service == "" then database.sid else database.service) then Err(Malformed)
    else Ok(true)
  }

  function ValidEndpoints(endpoints: seq<Address>, database: Database, platform: Platform): Result<bool> {
    if endpoints == [] then Ok(true)
    else
      var _ :- ValidAddress(endpoints[0], platform);
      var _ :- ValidDatabase(database);
      ValidEndpoints(endpoints[1..], database, platform)
  }

  // ----- the description

  function WithImplicit(lists: Lists, failover: bool, loadBalance: bool): (r: seq<AddressList>)
    requires ListsFit(lists)
    ensures |r| == |lists.lists|
    ensures forall i :: 0 <= i < |r| ==> r[i].addresses == lists.lists[i].addresses
  {
    if lists.implicitAt.None? then lists.lists
    else
      var at := lists.implicitAt.value;
      lists.lists[at := AddressList(lists.lists[at].addresses, failover, loadBalance)]
  }

  function TimingOf(node: Node): Result<Timing> {
    var retryCount :- OptionalSeconds(node, "RETRY_COUNT", MAX_CONNECT_RETRY_COUNT, false);
    var retryDelay :- OptionalSeconds(node, "RETRY_DELAY", MAX_CONNECT_RETRY_DELAY_SECONDS, false);
    var connect :- OptionalSeconds(node, "CONNECT_TIMEOUT", MAX_CONNECT_BUDGET_SECONDS, true);
    var transport :- OptionalSeconds(node, "TRANSPORT_CONNECT_TIMEOUT", MAX_TRANSPORT_SECONDS, true);
    Ok(Timing(retryCount, retryDelay, connect, transport))
  }

  function DescriptionOf(root: Node, platform: Platform): Result<Parsed> {
    var taken :- TakeChildren(Lists([], None), root.children);
    var total := |Flattened(taken.lists)|;
    if total == 0 || total > MAX_CONNECT_ADDRESSES then Err(Malformed)
    else
      var _ :- RefusesSourceRoute(root);
      var failover :- OptionalSwitch(root, FAILOVER, true);
      var loadBalance :- OptionalSwitch(root, LOAD_BALANCE, false);
      var lists := WithImplicit(taken, failover, loadBalance);
      var timing :- TimingOf(root);
      var endpoints := Flattened(lists);
      var connectData :- RequiredContainer(root, CONNECT_DATA);
      var database :- DatabaseOf(connectData);
      var security :- TakeSecurity(Security("", true), root.children);
      var _ :- ValidEndpoints(endpoints, database, platform);
      Ok(Parsed(endpoints, lists, failover, loadBalance, database, timing, security))
  }

  // ----- a list of descriptions

  datatype Merge = Merge(merged: Option<Parsed>, failover: bool, loadBalance: bool)

  function FirstOf(a: Option<nat>, b: Option<nat>): Option<nat> {
    if a.Some? then a else b
  }

  /** Another description of the list: its addresses behind those so far, and its timing where none was given. */
  function Merged(so: Parsed, part: Parsed): Result<Parsed> {
    if part.database != so.database || part.security.certDn != so.security.certDn then Err(Unsupported)
    else
      Ok(so.(
         endpoints := so.endpoints + part.endpoints,
         lists := so.lists + part.lists,
         timing := Timing(
           FirstOf(so.timing.retryCount, part.timing.retryCount), FirstOf(so.timing.retryDelay, part.timing.retryDelay),
           FirstOf(so.timing.connect, part.timing.connect), FirstOf(so.timing.transport, part.timing.transport))))
  }

  function TakeDescriptions(so: Merge, children: seq<Node>, platform: Platform): Result<Merge>
    decreases |children|
  {
    if children == [] then Ok(so)
    else if children[0].key == FAILOVER then
      var on :- SwitchOf(children[0].value);
      TakeDescriptions(so.(failover := on), children[1..], platform)
    else if children[0].key == LOAD_BALANCE then
      var on :- SwitchOf(children[0].value);
      TakeDescriptions(so.(loadBalance := on), children[1..], platform)
    else if children[0].key != DESCRIPTION || children[0].value != "" then Err(Unsupported)
    else
      var part :- DescriptionOf(children[0], platform);
      if so.merged.None? then TakeDescriptions(so.(merged := Some(part)), children[1..], platform)
      else
        var merged :- Merged(so.merged.value, part);
        TakeDescriptions(so.(merged := Some(merged)), children[1..], platform)
  }

  function DescriptorOf(root: Node, platform: Platform): Result<Parsed> {
    if root.key != DESCRIPTION_LIST then
      if root.key != DESCRIPTION || root.value != "" then Err(Malformed) else DescriptionOf(root, platform)
    else if root.children == [] || |root.children| > MAX_CONNECT_ADDRESSES then Err(Malformed)
    else
      var taken :- TakeDescriptions(Merge(None, true, false), root.children, platform);
      if taken.merged.None? then Err(Malformed)
      else if |taken.merged.value.endpoints| > MAX_CONNECT_ADDRESSES then Err(Malformed)
      else Ok(taken.merged.value.(failover := taken.failover, loadBalance := taken.loadBalance))
  }

  function ParseConnectDescriptor(text: string, platform: Platform): Result<Parsed> {
    var root := ParseText(text);
    if root.None? then Err(Malformed) else DescriptorOf(root.value, platform)
  }

  /** The loop over the descriptions of a list. */
  method MergeDescriptions(children: seq<Node>, platform: Platform) returns (r: Result<Merge>)
    ensures r == TakeDescriptions(Merge(None, true, false), children, platform)
  {
    hide DescriptionOf, SwitchOf, Merged;
    var so := Merge(None, true, false);
    assert children[0..] == children;
    for i := 0 to |children|
      invariant TakeDescriptions(so, children[i..], platform) == TakeDescriptions(Merge(None, true, false), children, platform)
    {
      var child := children[i];
      assert children[i..][0] == child && children[i..][1..] == children[i + 1..];
      if child.key == FAILOVER || child.key == LOAD_BALANCE {
        var on := SwitchOf(child.value);
        if on.Err? {
          return Err(on.kind);
        }
        so := if child.key == FAILOVER then so.(failover := on.value) else so.(loadBalance := on.value);
      } else if child.key != DESCRIPTION || child.value != "" {
        return Err(Unsupported);
      } else {
        var part := DescriptionOf(child, platform);
        if part.Err? {
          return Err(part.kind);
        }
        if so.merged.None? {
          so := so.(merged := Some(part.value));
        } else {
          var merged := Merged(so.merged.value, part.value);
          if merged.Err? {
            return Err(merged.kind);
          }
          so := so.(merged := Some(merged.value));
        }
      }
    }
    return Ok(so);
  }

  // ----- endpoints and lists

  /** The endpoints are the addresses of the lists, flattened. */
  ghost predicate Consistent(parsed: Parsed) {
    parsed.endpoints == Flattened(parsed.lists) && parsed.endpoints != []
  }

  lemma DescriptionIsConsistent(root: Node, platform: Platform)
    requires DescriptionOf(root, platform).Ok?
    ensures Consistent(DescriptionOf(root, platform).value)
    ensures |DescriptionOf(root, platform).value.endpoints| <= MAX_CONNECT_ADDRESSES
  {
    hide TakeChildren, RefusesSourceRoute, OptionalSwitch, TimingOf, RequiredContainer, DatabaseOf, TakeSecurity,
         ValidEndpoints, Flattened, WithImplicit;
    var taken := TakeChildren(Lists([], None), root.children).value;
    var parsed := DescriptionOf(root, platform).value;
    SameAddresses(taken.lists, parsed.lists);
  }

  lemma {:induction false} SameAddresses(a: seq<AddressList>, b: seq<AddressList>)
    requires |a| == |b| && forall i :: 0 <= i < |a| ==> a[i].addresses == b[i].addresses
    ensures Flattened(a) == Flattened(b)
  {
    if a != [] {
      SameAddresses(a[1..], b[1..]);
    }
  }

  lemma {:induction false} MergingIsConsistent(so: Merge, children: seq<Node>, platform: Platform)
    requires so.merged.Some? ==> Consistent(so.merged.value)
    requires TakeDescriptions(so, children, platform).Ok?
    ensures TakeDescriptions(so, children, platform).value.merged.Some? ==>
      Consistent(TakeDescriptions(so, children, platform).value.merged.value)
    decreases |children|
  {
    hide DescriptionOf, SwitchOf, Flattened;
    if children != [] {
      if children[0].key == FAILOVER {
        MergingIsConsistent(so.(failover := SwitchOf(children[0].value).value), children[1..], platform);
      } else if children[0].key == LOAD_BALANCE {
        MergingIsConsistent(so.(loadBalance := SwitchOf(children[0].value).value), children[1..], platform);
      } else {
        var part := DescriptionOf(children[0], platform).value;
        DescriptionIsConsistent(children[0], platform);
        if so.merged.None? {
          MergingIsConsistent(so.(merged := Some(part)), children[1..], platform);
        } else {
          FlattenedJoins(so.merged.value.lists, part.lists);
          MergingIsConsistent(so.(merged := Some(Merged(so.merged.value, part).value)), children[1..], platform);
        }
      }
    }
  }

  /** Whatever is parsed, one description or a list of them merged, names between one and sixteen endpoints, and
      they are the addresses of its lists, flattened. */
  lemma EndpointsAreTheLists(text: string, platform: Platform)
    requires ParseConnectDescriptor(text, platform).Ok?
    ensures var parsed := ParseConnectDescriptor(text, platform).value;
      parsed.endpoints == Flattened(parsed.lists) && 1 <= |parsed.endpoints| <= MAX_CONNECT_ADDRESSES
  {
    hide ParseText, DescriptionOf, TakeDescriptions, Flattened;
    var root := ParseText(text).value;
    if root.key == DESCRIPTION_LIST {
      MergingIsConsistent(Merge(None, true, false), root.children, platform);
    } else {
      DescriptionIsConsistent(root, platform);
    }
  }
}
