/**
 The connect string a session sends (connect_descriptor.cpp) and the parser's reading of it: parsing what is built
 returns the address, the database, the instance and the server type it was built from.
 */
module ConnectString {
  import opened Protocol
  import opened Characters
  import opened DescriptorText
  import opened ConnectDescriptor

  // ----- what is sent

  /** A configuration without a connection id: what its descriptor is written from. */
  datatype Config = Config(database: Database)

  function Decimal(n: nat): (digits: string)
    ensures digits != "" && forall i :: 0 <= i < |digits| ==> Digit(digits[i])
  {
    (if n < 10 then "" else Decimal(n / 10)) + [('0' as int + n % 10) as char]
  }

  lemma {:induction false} DecimalReads(n: nat, maximum: nat)
    requires n <= maximum
    ensures NumberUpTo(Decimal(n), maximum, Malformed) == Ok(n)
  {
    var digits := Decimal(n);
    if n >= 10 {
      DecimalReads(n / 10, maximum);
      assert digits[..|digits| - 1] == Decimal(n / 10);
    } else {
      assert digits[..0] == "";
    }
  }

  function Field(key: string, value: string): string {
    "(" + key + "=" + value + ")"
  }

  function TransportText(protocol: Transport): string {
    if protocol.Tcps? then "tcps" else "tcp"
  }

  function AddressFields(address: Address): string {
    Field(PROTOCOL, TransportText(address.protocol)) + Field(HOST, address.host)
    + Field(PORT, Decimal(address.port))
  }

  function DatabaseFields(database: Database): string {
    (if database.sid == "" then Field(SERVICE_NAME, database.service) else Field(SID, database.sid))
    + (if database.instance == "" then "" else Field(INSTANCE_NAME, database.instance))
    + (if database.server == "" then "" else Field(SERVER, Upper(database.server)))
  }

  /** BuildAuthConnectString, for a configuration with no connection id. */
  function BuildAuthConnectString(config: Config, address: Address, platform: Platform): Result<string> {
    var _ :- ValidDatabase(config.database);
    var _ :- ValidAddress(address, platform);
    var text := Field(DESCRIPTION, Field(ADDRESS, AddressFields(address))
                                     + Field(CONNECT_DATA, DatabaseFields(config.database)));
    if |text| > MAX_DESCRIPTOR_BYTES then Err(LimitExceeded) else Ok(text)
  }

  // ----- the same text as a tree written without white space

  function Value(key: string, value: string): Laid {
    Scalar("", key, "", "", Plain(value), "", "")
  }

  function Group(key: string, children: seq<Laid>): Laid {
    Section("", key, "", "", children, "")
  }

  function AddressTree(address: Address): seq<Laid> {
    [Value(PROTOCOL, TransportText(address.protocol)), Value(HOST, address.host),
     Value(PORT, Decimal(address.port))]
  }

  function DatabaseTree(database: Database): seq<Laid> {
    [if database.sid == "" then Value(SERVICE_NAME, database.service) else Value(SID, database.sid)]
    + (if database.instance == "" then [] else [Value(INSTANCE_NAME, database.instance)])
    + (if database.server == "" then [] else [Value(SERVER, Upper(database.server))])
  }

  function DescriptorTree(config: Config, address: Address): Laid {
    Group(DESCRIPTION, [Group(ADDRESS, AddressTree(address)), Group(CONNECT_DATA, DatabaseTree(config.database))])
  }

  lemma FieldIsText(key: string, value: string)
    ensures Text(Value(key, value)) == Field(key, value)
  {
    assert Body(Value(key, value)) == value;
    assert "" + key + "" + "=" + "" + (value + ")") == key + "=" + value + ")";
  }

  lemma SectionIsText(key: string, children: seq<Laid>)
    ensures Text(Group(key, children)) == Field(key, Texts(children))
  {
    hide Texts;
    assert Body(Group(key, children)) == Texts(children);
    assert "" + key + "" + "=" + "" + (Texts(children) + ")") == key + "=" + Texts(children) + ")";
  }

  lemma TextsOf(first: Laid, rest: seq<Laid>)
    ensures Texts([first] + rest) == Text(first) + first.behind + Texts(rest)
    ensures Texts([]) == ""
  {
    hide Text;
    assert ([first] + rest)[1..] == rest;
  }

  lemma AddressText(address: Address)
    ensures Texts(AddressTree(address)) == AddressFields(address)
  {
    var protocol, host, port := Value(PROTOCOL, TransportText(address.protocol)), Value(HOST, address.host),
                                Value(PORT, Decimal(address.port));
    FieldIsText(PROTOCOL, TransportText(address.protocol));
    FieldIsText(HOST, address.host);
    FieldIsText(PORT, Decimal(address.port));
    TextsOf(port, []);
    TextsOf(host, [port]);
    TextsOf(protocol, [host, port]);
    hide Text, Texts, Decimal, TransportText, Field;
    assert AddressTree(address) == [protocol] + [host, port] && [host, port] == [host] + [port] && [port] == [port] + [];
  }

  lemma DatabaseText(database: Database)
    ensures Texts(DatabaseTree(database)) == DatabaseFields(database)
  {
    var first := if database.sid == "" then Value(SERVICE_NAME, database.service) else Value(SID, database.sid);
    var instances := if database.instance == "" then [] else [Value(INSTANCE_NAME, database.instance)];
    var servers := if database.server == "" then [] else [Value(SERVER, Upper(database.server))];
    FieldIsText(SERVICE_NAME, database.service);
    FieldIsText(SID, database.sid);
    FieldIsText(INSTANCE_NAME, database.instance);
    FieldIsText(SERVER, Upper(database.server));
    TextsOf(first, instances + servers);
    TextsOf(Value(INSTANCE_NAME, database.instance), servers);
    TextsOf(Value(SERVER, Upper(database.server)), []);
    hide Text, Texts, Upper, Field;
    assert DatabaseTree(database) == [first] + (instances + servers);
    assert servers == [] || servers == [Value(SERVER, Upper(database.server))] + [];
    assert instances + servers == (if database.instance == "" then servers else [Value(INSTANCE_NAME, database.instance)] + servers);
  }

  lemma PairTexts(a: Laid, b: Laid)
    requires a.behind == "" && b.behind == ""
    ensures Texts([a, b]) == Text(a) + Text(b)
  {
    TextsOf(b, []);
    TextsOf(a, [b]);
    hide Text, Texts;
    assert [a] + [b] == [a, b] && [b] + [] == [b];
    assert Text(b) + "" + "" == Text(b) && Text(a) + "" + Text(b) == Text(a) + Text(b);
  }

  lemma SentText(config: Config, address: Address)
    ensures Text(DescriptorTree(config, address))
         == Field(DESCRIPTION, Field(ADDRESS, AddressFields(address))
                               + Field(CONNECT_DATA, DatabaseFields(config.database)))
  {
    hide Text, Texts, Field, AddressFields, DatabaseFields, AddressTree, DatabaseTree, DESCRIPTION, ADDRESS, CONNECT_DATA;
    var a, d := Group(ADDRESS, AddressTree(address)), Group(CONNECT_DATA, DatabaseTree(config.database));
    PairTexts(a, d);
    AddressText(address);
    DatabaseText(config.database);
    SectionIsText(ADDRESS, AddressTree(address));
    SectionIsText(CONNECT_DATA, DatabaseTree(config.database));
    SectionIsText(DESCRIPTION, [a, d]);
  }

  // ----- the tree is one the grammar has

  lemma NamesAreWritten(value: string)
    requires IsDescriptorAtom(value)
    ensures IsWritten(Plain(value))
  {
    assert NameCharacter(value[0]);
  }

  lemma HostIsWritten(address: Address, platform: Platform)
    requires Sensible(platform) && ValidAddress(address, platform).Ok?
    ensures IsWritten(Plain(address.host))
  {
    if IsDescriptorAtom(address.host) {
      NamesAreWritten(address.host);
    } else {
      assert Ipv6Character(address.host[0]);
    }
  }

  lemma DigitsAreWritten(n: nat)
    ensures IsWritten(Plain(Decimal(n)))
  {
    var digits := Decimal(n);
    hide Decimal;
    assert Digit(digits[0]);
  }

  lemma ServerIsWritten(server: string)
    requires Upper(server) in {"DEDICATED", "SHARED"}
    ensures IsWritten(Plain(Upper(server)))
  {
    hide Upper;
    assert IsWritten(Plain("DEDICATED"));
    assert IsWritten(Plain("SHARED"));
  }

  lemma ValueIsProper(key: string, value: string, depth: nat)
    requires IsKey(key) && IsWritten(Plain(value)) && depth <= MAX_DEPTH
    ensures Proper(Value(key, value), depth)
  {
  }

  lemma GroupIsProper(key: string, children: seq<Laid>, depth: nat)
    requires IsKey(key) && depth <= MAX_DEPTH && children != []
    requires forall i :: 0 <= i < |children| ==> Proper(children[i], depth + 1)
    ensures Proper(Group(key, children), depth)
  {
  }

  lemma AddressIsProper(address: Address, platform: Platform)
    requires Sensible(platform) && ValidAddress(address, platform).Ok?
    ensures Proper(Group(ADDRESS, AddressTree(address)), 1)
  {
    HostIsWritten(address, platform);
    DigitsAreWritten(address.port);
    assert IsKey(PROTOCOL) && IsKey(HOST) && IsKey(PORT) && IsKey(ADDRESS);
    assert IsWritten(Plain(TransportText(address.protocol)));
    hide IsKey, IsWritten, Proper, Decimal, Sensible, ValidAddress, PROTOCOL, HOST, PORT, ADDRESS, TransportText;
    ValueIsProper(PROTOCOL, TransportText(address.protocol), 2);
    ValueIsProper(HOST, address.host, 2);
    ValueIsProper(PORT, Decimal(address.port), 2);
    GroupIsProper(ADDRESS, AddressTree(address), 1);
  }

  lemma DatabaseNamesAreWritten(database: Database)
    requires ValidDatabase(database).Ok?
    ensures IsWritten(Plain(if database.sid == "" then database.service else database.sid))
    ensures database.instance != "" ==> IsWritten(Plain(database.instance))
    ensures database.server != "" ==> IsWritten(Plain(Upper(database.server)))
  {
    NamesAreWritten(if database.service == "" then database.sid else database.service);
    if database.instance != "" {
      NamesAreWritten(database.instance);
    }
    if database.server != "" {
      ServerIsWritten(database.server);
    }
    hide IsWritten, IsDescriptorAtom, Upper;
  }

  lemma DatabaseIsProper(database: Database)
    requires ValidDatabase(database).Ok?
    ensures Proper(Group(CONNECT_DATA, DatabaseTree(database)), 1)
  {
    DatabaseNamesAreWritten(database);
    DatabaseKeys();
    hide IsKey, IsWritten, Proper, ValidDatabase, Upper, SERVICE_NAME, SID, INSTANCE_NAME, SERVER, CONNECT_DATA;
    ValueIsProper(if database.sid == "" then SERVICE_NAME else SID,
                  if database.sid == "" then database.service else database.sid, 2);
    if database.instance != "" {
      ValueIsProper(INSTANCE_NAME, database.instance, 2);
    }
    if database.server != "" {
      ValueIsProper(SERVER, Upper(database.server), 2);
    }
    GroupIsProper(CONNECT_DATA, DatabaseTree(database), 1);
  }

  lemma DatabaseKeys()
    ensures IsKey(SERVICE_NAME) && IsKey(SID) && IsKey(INSTANCE_NAME) && IsKey(SERVER) && IsKey(CONNECT_DATA)
  {
  }

  lemma TreeIsProper(config: Config, address: Address, platform: Platform)
    requires Sensible(platform) && ValidAddress(address, platform).Ok? && ValidDatabase(config.database).Ok?
    ensures Proper(DescriptorTree(config, address), 0)
  {
    hide Proper, Sensible, ValidAddress, ValidDatabase, ADDRESS, CONNECT_DATA, Group, AddressTree, DatabaseTree;
    AddressIsProper(address, platform);
    DatabaseIsProper(config.database);
    assert IsKey(DESCRIPTION);
    hide IsKey, DESCRIPTION;
    var parts := [Group(ADDRESS, AddressTree(address)), Group(CONNECT_DATA, DatabaseTree(config.database))];
    assert Proper(parts[0], 1) && Proper(parts[1], 1);
    GroupIsProper(DESCRIPTION, parts, 0);
  }

  // ----- what the tree means

  /** Text without small letters is its own upper case. */
  lemma UpperStays(text: string)
    requires HasNoSmall(text)
    ensures Upper(text) == text
  {
  }

  lemma UpperTwice(text: string)
    ensures Upper(Upper(text)) == Upper(text)
  {
    UpperStays(Upper(text));
  }

  function Leaf(key: string, value: string): Node {
    Node(key, value, [])
  }

  function AddressNode(address: Address): Node {
    Node(ADDRESS, "", [Leaf(PROTOCOL, TransportText(address.protocol)), Leaf(HOST, address.host),
                         Leaf(PORT, Decimal(address.port))])
  }

  function DatabaseNode(database: Database): Node {
    Node(CONNECT_DATA, "",
      [if database.sid == "" then Leaf(SERVICE_NAME, database.service) else Leaf(SID, database.sid)]
      + (if database.instance == "" then [] else [Leaf(INSTANCE_NAME, database.instance)])
      + (if database.server == "" then [] else [Leaf(SERVER, Upper(database.server))]))
  }

  /** A key of a descriptor: no small letters. */
  predicate HasNoSmall(key: string) {
    forall i :: 0 <= i < |key| ==> !('a' <= key[i] <= 'z')
  }

  lemma KeysAreUpper()
    ensures Upper(PROTOCOL) == PROTOCOL && Upper(HOST) == HOST && Upper(PORT) == PORT
    ensures Upper(ADDRESS) == ADDRESS && Upper(DESCRIPTION) == DESCRIPTION
  {
    hide Upper;
    assert HasNoSmall(PROTOCOL) && HasNoSmall(HOST) && HasNoSmall(PORT);
    assert HasNoSmall(ADDRESS) && HasNoSmall(DESCRIPTION);
    hide PROTOCOL, HOST, PORT, ADDRESS, DESCRIPTION;
    UpperStays(PROTOCOL);
    UpperStays(HOST);
    UpperStays(PORT);
    UpperStays(ADDRESS);
    UpperStays(DESCRIPTION);
  }

  lemma DatabaseKeysAreUpper()
    ensures Upper(SERVICE_NAME) == SERVICE_NAME && Upper(SID) == SID && Upper(SERVER) == SERVER
    ensures Upper(INSTANCE_NAME) == INSTANCE_NAME && Upper(CONNECT_DATA) == CONNECT_DATA
  {
    hide Upper;
    assert HasNoSmall(SERVICE_NAME) && HasNoSmall(SID) && HasNoSmall(SERVER);
    assert HasNoSmall(INSTANCE_NAME) && HasNoSmall(CONNECT_DATA);
    hide SERVICE_NAME, SID, SERVER, INSTANCE_NAME, CONNECT_DATA;
    UpperStays(SERVICE_NAME);
    UpperStays(SID);
    UpperStays(SERVER);
    UpperStays(INSTANCE_NAME);
    UpperStays(CONNECT_DATA);
  }

  lemma TreesOf(first: Laid, rest: seq<Laid>)
    ensures Trees([first] + rest) == [Tree(first)] + Trees(rest) && Trees([]) == []
  {
    assert ([first] + rest)[1..] == rest;
  }

  lemma AddressTreeIs(address: Address)
    ensures Tree(Group(ADDRESS, AddressTree(address))) == AddressNode(address)
  {
    KeysAreUpper();
    var protocol, host, port := Value(PROTOCOL, TransportText(address.protocol)), Value(HOST, address.host),
                                Value(PORT, Decimal(address.port));
    TreesOf(port, []);
    TreesOf(host, [port]);
    TreesOf(protocol, [host, port]);
    hide Upper, Trees, Decimal, TransportText;
    assert AddressTree(address) == [protocol] + [host, port] && [host, port] == [host] + [port] && [port] == [port] + [];
  }

  lemma DatabaseTreeIs(database: Database)
    ensures Tree(Group(CONNECT_DATA, DatabaseTree(database))) == DatabaseNode(database)
  {
    DatabaseKeysAreUpper();
    var first := if database.sid == "" then Value(SERVICE_NAME, database.service) else Value(SID, database.sid);
    var instances := if database.instance == "" then [] else [Value(INSTANCE_NAME, database.instance)];
    var servers := if database.server == "" then [] else [Value(SERVER, Upper(database.server))];
    TreesOf(first, instances + servers);
    TreesOf(Value(INSTANCE_NAME, database.instance), servers);
    TreesOf(Value(SERVER, Upper(database.server)), []);
    hide Upper, Trees;
    assert DatabaseTree(database) == [first] + (instances + servers);
    assert servers == [] || servers == [Value(SERVER, Upper(database.server))] + [];
    assert instances + servers == (if database.instance == "" then servers else [Value(INSTANCE_NAME, database.instance)] + servers);
  }

  lemma DescriptorTreeIs(config: Config, address: Address)
    ensures Tree(DescriptorTree(config, address))
         == Node(DESCRIPTION, "", [AddressNode(address), DatabaseNode(config.database)])
  {
    KeysAreUpper();
    var a, d := Group(ADDRESS, AddressTree(address)), Group(CONNECT_DATA, DatabaseTree(config.database));
    AddressTreeIs(address);
    DatabaseTreeIs(config.database);
    TreesOf(d, []);
    TreesOf(a, [d]);
    hide Upper, Trees, AddressNode, DatabaseNode;
    assert [a, d] == [a] + [d] && [d] == [d] + [];
  }

  // ----- and reads back

  lemma AddressKeysDiffer()
    ensures PROTOCOL != HOST && PROTOCOL != PORT && HOST != PORT
    ensures PROTOCOL in ADDRESS_KEYS && HOST in ADDRESS_KEYS && PORT in ADDRESS_KEYS
  {
    assert |PROTOCOL| == 8 && |HOST| == 4 && HOST[0] == 'H' && PORT[0] == 'P';
  }

  lemma DatabaseKeysDiffer()
    ensures SERVICE_NAME != SID && SERVICE_NAME != INSTANCE_NAME && SERVICE_NAME != SERVER
    ensures SID != INSTANCE_NAME && SID != SERVER && INSTANCE_NAME != SERVER
  {
    assert |SERVICE_NAME| == 12 && |SID| == 3 && |INSTANCE_NAME| == 13 && |SERVER| == 6;
  }

  lemma NamedOf(first: Node, rest: seq<Node>, key: string)
    ensures Named([first] + rest, key) == (if first.key == key then [first] else []) + Named(rest, key)
    ensures Named([], key) == []
  {
    assert ([first] + rest)[1..] == rest;
  }

  lemma AddressNamed(address: Address, key: string)
    ensures Named(AddressNode(address).children, key)
         == (if key == PROTOCOL then [Leaf(PROTOCOL, TransportText(address.protocol))]
             else if key == HOST then [Leaf(HOST, address.host)]
             else if key == PORT then [Leaf(PORT, Decimal(address.port))] else [])
  {
    var protocol, host, port := Leaf(PROTOCOL, TransportText(address.protocol)), Leaf(HOST, address.host),
                                Leaf(PORT, Decimal(address.port));
    AddressKeysDiffer();
    hide PROTOCOL, HOST, PORT, ADDRESS, ADDRESS_KEYS;
    NamedOf(port, [], key);
    NamedOf(host, [port], key);
    NamedOf(protocol, [host, port], key);
    hide Named, Decimal, TransportText;
    assert AddressNode(address).children == [protocol] + [host, port];
    assert [host, port] == [host] + [port] && [port] == [port] + [];
  }

  lemma TransportReads(protocol: Transport)
    ensures TransportOf(TransportText(protocol)) == Ok(protocol) && TransportText(protocol) != ""
  {
    assert Upper("tcp") == "TCP" && Upper("tcps") == "TCPS";
  }

  lemma ScalarReads(node: Node, key: string, value: string)
    requires Named(node.children, key) == [Leaf(key, value)] && value != ""
    ensures OptionalScalar(node, key) == Ok(Some(value)) && RequiredScalar(node, key) == Ok(value)
  {
    hide Named;
  }

  lemma ScalarAbsent(node: Node, key: string)
    requires Named(node.children, key) == []
    ensures OptionalScalar(node, key) == Ok(None)
  {
    hide Named;
  }

  lemma AddressReads(address: Address)
    requires address.host != "" && 0 < address.port <= 65535
    ensures AddressOf(AddressNode(address)) == Ok(address)
  {
    AddressKeysDiffer();
    hide PROTOCOL, HOST, PORT, ADDRESS, ADDRESS_KEYS, Named, Decimal, TransportText, TransportOf, NumberUpTo,
         OptionalScalar, RequiredScalar;
    var node := AddressNode(address);
    AddressNamed(address, PROTOCOL);
    AddressNamed(address, HOST);
    AddressNamed(address, PORT);
    TransportReads(address.protocol);
    DecimalReads(address.port, 65535);
    ScalarReads(node, PROTOCOL, TransportText(address.protocol));
    ScalarReads(node, HOST, address.host);
    ScalarReads(node, PORT, Decimal(address.port));
    assert OnlyKeys(node.children, ADDRESS_KEYS);
  }

  lemma DatabaseNamed(database: Database, key: string)
    ensures Named(DatabaseNode(database).children, key)
         == (if key == SERVICE_NAME && database.sid == "" then [Leaf(SERVICE_NAME, database.service)]
             else if key == SID && database.sid != "" then [Leaf(SID, database.sid)]
             else if key == INSTANCE_NAME && database.instance != "" then [Leaf(INSTANCE_NAME, database.instance)]
             else if key == SERVER && database.server != "" then [Leaf(SERVER, Upper(database.server))]
             else [])
  {
    var first := if database.sid == "" then Leaf(SERVICE_NAME, database.service) else Leaf(SID, database.sid);
    var instances := if database.instance == "" then [] else [Leaf(INSTANCE_NAME, database.instance)];
    var servers := if database.server == "" then [] else [Leaf(SERVER, Upper(database.server))];
    DatabaseKeysDiffer();
    hide SERVICE_NAME, SID, INSTANCE_NAME, SERVER, CONNECT_DATA;
    NamedOf(first, instances + servers, key);
    NamedOf(Leaf(INSTANCE_NAME, database.instance), servers, key);
    NamedOf(Leaf(SERVER, Upper(database.server)), [], key);
    hide Named, Upper;
    assert DatabaseNode(database).children == [first] + (instances + servers);
    assert servers == [] || servers == [Leaf(SERVER, Upper(database.server))] + [];
    assert instances + servers == (if database.instance == "" then servers else [Leaf(INSTANCE_NAME, database.instance)] + servers);
  }

  /** The database as it is read: the server type in upper case. */
  function AsRead(database: Database): Database {
    database.(server := Upper(database.server))
  }

  lemma ServiceOrSidReads(database: Database)
    requires database.sid == "" ==> database.service != ""
    ensures var node := DatabaseNode(database);
      && OptionalScalar(node, SERVICE_NAME) == Ok(if database.sid == "" then Some(database.service) else None)
      && OptionalScalar(node, SID) == Ok(if database.sid == "" then None else Some(database.sid))
  {
    DatabaseKeysDiffer();
    hide SERVICE_NAME, SID, INSTANCE_NAME, SERVER, CONNECT_DATA, Named, Upper, OptionalScalar, DatabaseNode;
    var node := DatabaseNode(database);
    DatabaseNamed(database, SERVICE_NAME);
    DatabaseNamed(database, SID);
    if database.sid == "" {
      ScalarReads(node, SERVICE_NAME, database.service);
      ScalarAbsent(node, SID);
    } else {
      ScalarAbsent(node, SERVICE_NAME);
      ScalarReads(node, SID, database.sid);
    }
  }

  lemma InstanceReads(database: Database)
    ensures OptionalScalar(DatabaseNode(database), INSTANCE_NAME)
         == Ok(if database.instance == "" then None else Some(database.instance))
  {
    DatabaseKeysDiffer();
    hide SERVICE_NAME, SID, INSTANCE_NAME, SERVER, CONNECT_DATA, Named, Upper, OptionalScalar, DatabaseNode;
    DatabaseNamed(database, INSTANCE_NAME);
    if database.instance == "" {
      ScalarAbsent(DatabaseNode(database), INSTANCE_NAME);
    } else {
      ScalarReads(DatabaseNode(database), INSTANCE_NAME, database.instance);
    }
  }

  lemma ServerReads(database: Database)
    ensures OptionalScalar(DatabaseNode(database), SERVER)
         == Ok(if database.server == "" then None else Some(Upper(database.server)))
  {
    DatabaseKeysDiffer();
    hide SERVICE_NAME, SID, INSTANCE_NAME, SERVER, CONNECT_DATA, Named, Upper, OptionalScalar, DatabaseNode;
    DatabaseNamed(database, SERVER);
    if database.server == "" {
      ScalarAbsent(DatabaseNode(database), SERVER);
    } else {
      ScalarReads(DatabaseNode(database), SERVER, Upper(database.server));
    }
  }

  lemma ServerTypeReads(server: string)
    requires server == "" || Upper(server) in {"DEDICATED", "SHARED"}
    ensures server != "" ==> ServerOf(Upper(server)) == Ok(Upper(server))
    ensures server == "" ==> Upper(server) == ""
  {
    UpperTwice(server);
    hide Upper;
  }

  lemma OnlyDatabaseKeys(database: Database)
    ensures OnlyKeys(DatabaseNode(database).children, {SERVICE_NAME, INSTANCE_NAME, SERVER, SID})
  {
    hide SERVICE_NAME, SID, INSTANCE_NAME, SERVER, CONNECT_DATA, Upper;
  }

  lemma DatabaseReads(database: Database)
    requires ValidDatabase(database).Ok?
    ensures DatabaseOf(DatabaseNode(database)) == Ok(AsRead(database))
  {
    hide SERVICE_NAME, SID, INSTANCE_NAME, SERVER, CONNECT_DATA, Upper, IsDescriptorAtom, OptionalScalar, DatabaseNode,
         ServerOf, OnlyKeys;
    OnlyDatabaseKeys(database);
    ServiceOrSidReads(database);
    InstanceReads(database);
    ServerReads(database);
    ServerTypeReads(database.server);
  }

  // ----- the whole

  function DescriptorNode(config: Config, address: Address): Node {
    Node(DESCRIPTION, "", [AddressNode(address), DatabaseNode(config.database)])
  }

  lemma DescriptorNamed(config: Config, address: Address, key: string)
    ensures Named(DescriptorNode(config, address).children, key)
         == (if key == ADDRESS then [AddressNode(address)] else [])
            + (if key == CONNECT_DATA then [DatabaseNode(config.database)] else [])
  {
    NamedOf(DatabaseNode(config.database), [], key);
    NamedOf(AddressNode(address), [DatabaseNode(config.database)], key);
    assert AddressNode(address).key == ADDRESS && DatabaseNode(config.database).key == CONNECT_DATA;
    hide Named, AddressNode, DatabaseNode, ADDRESS, CONNECT_DATA;
    var a, d := AddressNode(address), DatabaseNode(config.database);
    assert [a, d] == [a] + [d] && [d] == [d] + [];
  }

  predicate OtherKey(key: string) {
    key != ADDRESS && key != CONNECT_DATA
  }

  lemma OthersAreAbsent(config: Config, address: Address, key: string)
    requires OtherKey(key)
    ensures OptionalScalar(DescriptorNode(config, address), key) == Ok(None)
  {
    hide Named, AddressNode, DatabaseNode, ADDRESS, CONNECT_DATA, DESCRIPTION, DescriptorNode;
    DescriptorNamed(config, address, key);
    ScalarAbsent(DescriptorNode(config, address), key);
  }

  lemma NoSwitches(config: Config, address: Address)
    ensures var node := DescriptorNode(config, address);
      && RefusesSourceRoute(node) == Ok(false)
      && OptionalSwitch(node, FAILOVER, true) == Ok(true)
      && OptionalSwitch(node, LOAD_BALANCE, false) == Ok(false)
  {
    assert OtherKey(SOURCE_ROUTE) && OtherKey(FAILOVER) && OtherKey(LOAD_BALANCE);
    hide OptionalScalar, DescriptorNode, ADDRESS, CONNECT_DATA, SOURCE_ROUTE, OtherKey;
    OthersAreAbsent(config, address, SOURCE_ROUTE);
    OthersAreAbsent(config, address, FAILOVER);
    OthersAreAbsent(config, address, LOAD_BALANCE);
  }

  lemma NoTiming(config: Config, address: Address)
    ensures TimingOf(DescriptorNode(config, address)) == Ok(Timing(None, None, None, None))
  {
    assert OtherKey("RETRY_COUNT") && OtherKey("RETRY_DELAY");
    assert OtherKey("CONNECT_TIMEOUT") && OtherKey("TRANSPORT_CONNECT_TIMEOUT");
    hide OptionalScalar, DescriptorNode, ADDRESS, CONNECT_DATA, OtherKey;
    OthersAreAbsent(config, address, "RETRY_COUNT");
    OthersAreAbsent(config, address, "RETRY_DELAY");
    OthersAreAbsent(config, address, "CONNECT_TIMEOUT");
    OthersAreAbsent(config, address, "TRANSPORT_CONNECT_TIMEOUT");
  }

  lemma ConnectDataReads(config: Config, address: Address)
    ensures RequiredContainer(DescriptorNode(config, address), CONNECT_DATA) == Ok(DatabaseNode(config.database))
  {
    assert ADDRESS != CONNECT_DATA;
    hide Named, ADDRESS, CONNECT_DATA, DESCRIPTION, DescriptorNode, AddressNode;
    DescriptorNamed(config, address, CONNECT_DATA);
  }

  lemma ChildrenTaken(config: Config, address: Address)
    requires AddressOf(AddressNode(address)) == Ok(address)
    ensures TakeChildren(Lists([], None), DescriptorNode(config, address).children)
         == Ok(Lists([AddressList([address], true, false)], Some(0)))
  {
    var a, d := AddressNode(address), DatabaseNode(config.database);
    assert a.key == ADDRESS && d.key == CONNECT_DATA && CONNECT_DATA != ADDRESS;
    assert CONNECT_DATA != "ADDRESS_LIST" && CONNECT_DATA in DESCRIPTION_KEYS;
    hide AddressOf, AddressNode, DatabaseNode, ADDRESS, CONNECT_DATA, DESCRIPTION, DESCRIPTION_KEYS, IGNORED_KEYS;
    var so := Lists([AddressList([address], true, false)], Some(0));
    var none: seq<AddressList> := [];
    assert none + [AddressList([address], true, false)] == [AddressList([address], true, false)];
    assert TakeAddress(Lists([], None), address) == so;
    assert [a, d][1..] == [d] && [d][1..] == [];
    assert TakeChildren(so, []) == Ok(so);
    assert TakeChildren(so, [d]) == Ok(so);
  }

  lemma NoSecurity(config: Config, address: Address)
    ensures TakeSecurity(Security("", true), DescriptorNode(config, address).children) == Ok(Security("", true))
  {
    var a, d := AddressNode(address), DatabaseNode(config.database);
    assert a.key == ADDRESS && d.key == CONNECT_DATA && ADDRESS != "SECURITY" && CONNECT_DATA != "SECURITY";
    hide AddressNode, DatabaseNode, ADDRESS, CONNECT_DATA, DESCRIPTION;
    assert [a, d][1..] == [d] && [d][1..] == [];
    assert TakeSecurity(Security("", true), [d]) == Ok(Security("", true));
  }

  lemma AsReadIsValid(database: Database)
    requires ValidDatabase(database).Ok?
    ensures ValidDatabase(AsRead(database)) == Ok(true)
  {
    UpperTwice(database.server);
    hide Upper, IsDescriptorAtom;
  }

  lemma EndpointIsValid(address: Address, database: Database, platform: Platform)
    requires ValidAddress(address, platform).Ok? && ValidDatabase(database).Ok?
    ensures ValidEndpoints([address], AsRead(database), platform) == Ok(true)
    ensures Flattened([AddressList([address], true, false)]) == [address]
  {
    AsReadIsValid(database);
    hide ValidDatabase, ValidAddress, AsRead;
    assert [address][1..] == [];
    assert ValidEndpoints([], AsRead(database), platform) == Ok(true);
    assert Flattened([]) == [] && [AddressList([address], true, false)][1..] == [];
    assert [address] + [] == [address];
  }

  /** What a connect string means: one address in one list, and the database. */
  function Meant(config: Config, address: Address): Parsed {
    Parsed([address], [AddressList([address], true, false)], true, false, AsRead(config.database),
           Timing(None, None, None, None), Security("", true))
  }

  lemma DescriptionReads(config: Config, address: Address, platform: Platform)
    requires ValidAddress(address, platform).Ok? && ValidDatabase(config.database).Ok?
    requires address.host != "" && address.port <= 65535
    ensures DescriptionOf(DescriptorNode(config, address), platform) == Ok(Meant(config, address))
  {
    hide TakeChildren, RefusesSourceRoute, OptionalSwitch, TimingOf, RequiredContainer, DatabaseOf, TakeSecurity,
         ValidEndpoints, ValidDatabase, Flattened, AddressOf, AddressNode, DatabaseNode, DescriptorNode, AsRead,
         ADDRESS, CONNECT_DATA, DESCRIPTION, FAILOVER, LOAD_BALANCE, IsDescriptorAtom;
    assert address.port > 0;
    AddressReads(address);
    hide ValidAddress;
    ChildrenTaken(config, address);
    NoSwitches(config, address);
    NoTiming(config, address);
    ConnectDataReads(config, address);
    DatabaseReads(config.database);
    NoSecurity(config, address);
    EndpointIsValid(address, config.database, platform);
    var lists := [AddressList([address], true, false)];
    assert lists[0 := AddressList([address], true, false)] == lists;
  }

  lemma DescriptorReads(config: Config, address: Address, platform: Platform)
    ensures DescriptorOf(DescriptorNode(config, address), platform)
         == DescriptionOf(DescriptorNode(config, address), platform)
  {
    assert DESCRIPTION != DESCRIPTION_LIST;
    hide DESCRIPTION, DESCRIPTION_LIST, DescriptionOf, AddressNode, DatabaseNode;
  }

  lemma HostIsNotEmpty(address: Address, platform: Platform)
    requires Sensible(platform) && ValidAddress(address, platform).Ok?
    ensures address.host != ""
  {
  }

  /** The text that is built parses to the tree it is written from. */
  lemma TextParses(config: Config, address: Address, platform: Platform)
    requires Sensible(platform) && BuildAuthConnectString(config, address, platform).Ok?
    ensures ParseText(BuildAuthConnectString(config, address, platform).value) == Some(DescriptorNode(config, address))
  {
    hide Field, AddressFields, DatabaseFields, ValidAddress, ValidDatabase, Sensible, ParseText, Text, Tree,
         DescriptorTree, DESCRIPTION, ADDRESS, CONNECT_DATA, Proper, AddressNode, DatabaseNode;
    var tree := DescriptorTree(config, address);
    SentText(config, address);
    TreeIsProper(config, address, platform);
    DescriptorTreeIs(config, address);
    BehindIsEmpty(config, address);
    assert "" + Text(tree) + "" == Text(tree);
    WrittenTreeParses(tree, "");
  }

  /**
   Parsing the connect string that is built for a configuration and an address returns that address as the one
   endpoint, the service name or SID, the instance, and the server type in upper case, with every option at its
   default.
   */
  lemma ConnectStringReadsBack(config: Config, address: Address, platform: Platform)
    requires Sensible(platform) && address.port <= 65535
    requires BuildAuthConnectString(config, address, platform).Ok?
    ensures ParseConnectDescriptor(BuildAuthConnectString(config, address, platform).value, platform)
         == Ok(Meant(config, address))
  {
    hide Field, AddressFields, DatabaseFields, ValidAddress, ValidDatabase, Sensible, ParseText, DescriptionOf,
         DescriptorNode, DescriptorOf, Meant, DESCRIPTION, ADDRESS, CONNECT_DATA;
    TextParses(config, address, platform);
    DescriptorReads(config, address, platform);
    HostIsNotEmpty(address, platform);
    DescriptionReads(config, address, platform);
  }

  lemma BehindIsEmpty(config: Config, address: Address)
    ensures DescriptorTree(config, address).behind == ""
  {
    hide AddressTree, DatabaseTree;
  }
}
