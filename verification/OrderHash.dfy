/**
 The hash of a Seaport order: the hand-written computation, the generic one of
 EIP-712, and what equal hashes say about two orders.
 */
module OrderHash {
  import opened Hex

  // ---------- orders ----------

  /** An item of an order; recipient is used by consideration items only. */
  datatype Item = Item(
    itemType: nat, token: Text, identifierOrCriteria: nat, startAmount: nat, endAmount: nat, recipient: Text)

  datatype OrderComponents = OrderComponents(
    offerer: Text, zone: Text, offer: seq<Item>, consideration: seq<Item>, orderType: nat,
    startTime: nat, endTime: nat, zoneHash: Text, salt: Text, conduitKey: Text, counter: nat)

  predicate IsUint256(n: nat) { n < Power(64) }

  predicate IsAddress(t: Text) { |t| == 40 }

  predicate IsBytes32(t: Text) { |t| == 64 }

  predicate IsUint8(n: nat) { n < 256 }

  /** An item every member of which fits 32 bytes; an offer item has no recipient. */
  predicate ItemEncodable(i: Item, hasRecipient: bool)
  {
    && IsUint256(i.itemType) && IsAddress(i.token) && (if hasRecipient then IsAddress(i.recipient) else i.recipient == [])
    && IsUint256(i.identifierOrCriteria) && IsUint256(i.startAmount) && IsUint256(i.endAmount)
  }

  ghost predicate Encodable(o: OrderComponents)
  {
    && IsAddress(o.offerer) && IsAddress(o.zone) && IsUint256(o.orderType)
    && IsUint256(o.startTime) && IsUint256(o.endTime) && IsUint256(o.counter)
    && IsBytes32(o.zoneHash) && IsBytes32(o.salt) && IsBytes32(o.conduitKey)
    && (forall k :: 0 <= k < |o.offer| ==> ItemEncodable(o.offer[k], false))
    && (forall k :: 0 <= k < |o.consideration| ==> ItemEncodable(o.consideration[k], true))
  }

  /** The values the types of the order allow: encodable, and uint8 where so declared. */
  ghost predicate InRange(o: OrderComponents)
  {
    && Encodable(o) && IsUint8(o.orderType)
    && (forall k :: 0 <= k < |o.offer| ==> IsUint8(o.offer[k].itemType))
    && (forall k :: 0 <= k < |o.consideration| ==> IsUint8(o.consideration[k].itemType))
  }

  // ---------- the hand-written computation ----------

  /** Type hashes of the order, the offer item and the consideration item. */
  datatype TypeHashes = TypeHashes(order: Word, offerItem: Word, considerationItem: Word)

  /** The members of orders and items. */
  datatype Name =
    | Offerer | Zone | Offer | Consideration | OrderType | StartTime | EndTime | ZoneHash | Salt | ConduitKey | Counter
    | ItemType | Token | IdentifierOrCriteria | StartAmount | EndAmount | Recipient

  /** The text the hand-written computation joins in for a member of an item. */
  function ItemPart(i: Item, name: Name): Text
  {
    match name
    case ItemType => Pad(Decimal(i.itemType))
    case Token => Pad(i.token)
    case IdentifierOrCriteria => Pad(ToHexString(i.identifierOrCriteria))
    case StartAmount => Pad(ToHexString(i.startAmount))
    case EndAmount => Pad(ToHexString(i.endAmount))
    case Recipient => Pad(i.recipient)
    case _ => []
  }

  function ItemParts(i: Item, names: seq<Name>): (r: seq<Text>)
    ensures |r| == |names|
  {
    seq(|names|, k requires 0 <= k < |names| => ItemPart(i, names[k]))
  }

  /** The names in the order in which they are joined for an item. */
  const OFFER_JOINED: seq<Name> := [ItemType, Token, IdentifierOrCriteria, StartAmount, EndAmount]
  const CONSIDERATION_JOINED: seq<Name> := [ItemType, Token, IdentifierOrCriteria, StartAmount, EndAmount, Recipient]

  function ItemHash(h: Hash, typeHash: Word, i: Item, names: seq<Name>): Word
  {
    h(Join([typeHash] + ItemParts(i, names)))
  }

  function ItemHashes(h: Hash, typeHash: Word, items: seq<Item>, names: seq<Name>): (r: seq<Word>)
    ensures |r| == |items|
  {
    seq(|items|, k requires 0 <= k < |items| => ItemHash(h, typeHash, items[k], names))
  }

  /** The text the hand-written computation joins in for a member of the order. */
  function OrderPart(h: Hash, th: TypeHashes, o: OrderComponents, name: Name): Text
  {
    match name
    case Offerer => Pad(o.offerer)
    case Zone => Pad(o.zone)
    case Offer => h(Join(ItemHashes(h, th.offerItem, o.offer, OFFER_JOINED)))
    case Consideration => h(Join(ItemHashes(h, th.considerationItem, o.consideration, CONSIDERATION_JOINED)))
    case OrderType => Pad(Decimal(o.orderType))
    case StartTime => Pad(ToHexString(o.startTime))
    case EndTime => Pad(ToHexString(o.endTime))
    case ZoneHash => o.zoneHash
    case Salt => Pad(o.salt)
    case ConduitKey => Pad(o.conduitKey)
    case Counter => Pad(ToHexString(o.counter))
    case _ => []
  }

  /** The names in the order in which the hand-written computation joins them. */
  const JOINED: seq<Name> :=
    [Offerer, Zone, Offer, Consideration, OrderType, StartTime, EndTime, ZoneHash, Salt, ConduitKey, Counter]

  function OrderParts(h: Hash, th: TypeHashes, o: OrderComponents, names: seq<Name>): (r: seq<Text>)
    ensures |r| == |names|
  {
    seq(|names|, k requires 0 <= k < |names| => OrderPart(h, th, o, names[k]))
  }

  function CalculateOrderHash(h: Hash, th: TypeHashes, o: OrderComponents): Word
  {
    h(Join([th.order] + OrderParts(h, th, o, JOINED)))
  }

  // ---------- the type table and EIP-712's hashStruct ----------

  datatype Type = Uint8 | Uint256 | Address | Bytes32 | OfferItems | ConsiderationItems
  {
    function Text(): string
    {
      match this
      case Uint8 => "uint8"
      case Uint256 => "uint256"
      case Address => "address"
      case Bytes32 => "bytes32"
      case OfferItems => "OfferItem[]"
      case ConsiderationItems => "ConsiderationItem[]"
    }
  }

  datatype Member = Member(name: Name, typ: Type)

  const ORDER_MEMBERS: seq<Member> := [
    Member(Offerer, Address), Member(Zone, Address), Member(Offer, OfferItems), Member(Consideration, ConsiderationItems),
    Member(OrderType, Uint8), Member(StartTime, Uint256), Member(EndTime, Uint256), Member(ZoneHash, Bytes32),
    Member(Salt, Uint256), Member(ConduitKey, Bytes32), Member(Counter, Uint256)]

  const OFFER_ITEM_MEMBERS: seq<Member> := [
    Member(ItemType, Uint8), Member(Token, Address), Member(IdentifierOrCriteria, Uint256),
    Member(StartAmount, Uint256), Member(EndAmount, Uint256)]

  const CONSIDERATION_ITEM_MEMBERS: seq<Member> := [
    Member(ItemType, Uint8), Member(Token, Address), Member(IdentifierOrCriteria, Uint256),
    Member(StartAmount, Uint256), Member(EndAmount, Uint256), Member(Recipient, Address)]

  /** A value by kind: a number, raw digits, or a list of items. */
  datatype Value = Uint(n: nat) | Raw(text: Text) | Items(items: seq<Item>)

  function ItemValue(i: Item, name: Name): Value
  {
    match name
    case ItemType => Uint(i.itemType)
    case Token => Raw(i.token)
    case IdentifierOrCriteria => Uint(i.identifierOrCriteria)
    case StartAmount => Uint(i.startAmount)
    case EndAmount => Uint(i.endAmount)
    case Recipient => Raw(i.recipient)
    case _ => Raw([])
  }

  function OrderValue(o: OrderComponents, name: Name): Value
  {
    match name
    case Offerer => Raw(o.offerer)
    case Zone => Raw(o.zone)
    case Offer => Items(o.offer)
    case Consideration => Items(o.consideration)
    case OrderType => Uint(o.orderType)
    case StartTime => Uint(o.startTime)
    case EndTime => Uint(o.endTime)
    case ZoneHash => Raw(o.zoneHash)
    case Salt => Uint(Number(o.salt))
    case ConduitKey => Raw(o.conduitKey)
    case Counter => Uint(o.counter)
    case _ => Raw([])
  }

  /** encodeData of one atomic member: 32 bytes, numbers big-endian, addresses as 160-bit
      numbers, bytes32 as they are. */
  function EncodeAtom(v: Value, typ: Type): Text
  {
    match typ
    case Uint8 => (match v case Uint(n) => Digits(n, 64) case _ => [])
    case Uint256 => (match v case Uint(n) => Digits(n, 64) case _ => [])
    case Address => (match v case Raw(t) => Digits(Number(t), 64) case _ => [])
    case Bytes32 => (match v case Raw(t) => t case _ => [])
    case _ => []
  }

  /** encodeData of an item, member by member. */
  function EncodeItem(i: Item, members: seq<Member>): (r: seq<Text>)
    ensures |r| == |members|
  {
    seq(|members|, k requires 0 <= k < |members| => EncodeAtom(ItemValue(i, members[k].name), members[k].typ))
  }

  /** hashStruct of an item. */
  function HashItem(h: Hash, typeHash: Word, i: Item, members: seq<Member>): Word
  {
    h(Join([typeHash] + EncodeItem(i, members)))
  }

  /** The hashStructs of the items of an array. */
  function HashItems(h: Hash, typeHash: Word, items: seq<Item>, members: seq<Member>): (r: seq<Word>)
    ensures |r| == |items|
  {
    seq(|items|, k requires 0 <= k < |items| => HashItem(h, typeHash, items[k], members))
  }

  /** encodeData of one member of the order; an array by the hash of its concatenation. */
  function EncodeMember(h: Hash, th: TypeHashes, v: Value, typ: Type): Text
  {
    match typ
    case OfferItems =>
      (match v case Items(s) => h(Join(HashItems(h, th.offerItem, s, OFFER_ITEM_MEMBERS))) case _ => [])
    case ConsiderationItems =>
      (match v case Items(s) => h(Join(HashItems(h, th.considerationItem, s, CONSIDERATION_ITEM_MEMBERS))) case _ => [])
    case _ => EncodeAtom(v, typ)
  }

  function EncodeOrder(h: Hash, th: TypeHashes, o: OrderComponents, members: seq<Member>): (r: seq<Text>)
    ensures |r| == |members|
  {
    seq(|members|, k requires 0 <= k < |members| => EncodeMember(h, th, OrderValue(o, members[k].name), members[k].typ))
  }

  /** hashStruct of an order, computed from the type table. */
  function HashStruct(h: Hash, th: TypeHashes, o: OrderComponents): Word
  {
    h(Join([th.order] + EncodeOrder(h, th, o, ORDER_MEMBERS)))
  }

  // ---------- the two computations compared ----------

  /** An item with its type read the way the hand-written computation writes it: the
      decimal digits taken as hexadecimal ones. */
  function RereadItem(i: Item): Item
  {
    i.(itemType := Number(Decimal(i.itemType)))
  }

  function RereadItems(items: seq<Item>): (r: seq<Item>)
    ensures |r| == |items|
  {
    seq(|items|, k requires 0 <= k < |items| => RereadItem(items[k]))
  }

  function Reread(o: OrderComponents): OrderComponents
  {
    o.(orderType := Number(Decimal(o.orderType)), offer := RereadItems(o.offer), consideration := RereadItems(o.consideration))
  }

  lemma PadAddress(t: Text)
    requires IsAddress(t)
    ensures Pad(t) == EncodeAtom(Raw(t), Address)
  {
    PadIsDigits(t);
  }

  lemma PadType(n: nat)
    requires IsUint8(n)
    ensures Pad(Decimal(n)) == EncodeAtom(Uint(Number(Decimal(n))), Uint8)
    ensures IsUint256(Number(Decimal(n)))
  {
    DecimalLength(n);
    PadIsDigits(Decimal(n));
  }

  lemma PadUint(n: nat)
    requires IsUint256(n)
    ensures Pad(ToHexString(n)) == EncodeAtom(Uint(n), Uint256)
  {
    PadHexString(n);
  }

  lemma PadSalt(t: Text)
    requires IsBytes32(t)
    ensures Pad(t) == EncodeAtom(Uint(Number(t)), Uint256)
  {
    PadIsDigits(t);
  }

  /** The type of a member of an item. */
  function ItemTypeOf(name: Name): Type
  {
    match name
    case ItemType => Uint8
    case Token => Address
    case Recipient => Address
    case _ => Uint256
  }

  predicate InItem(name: Name)
  {
    name.ItemType? || name.Token? || name.IdentifierOrCriteria? || name.StartAmount? || name.EndAmount? || name.Recipient?
  }

  /** Names and table entries of an item belong together. */
  ghost predicate ItemTable(names: seq<Name>, members: seq<Member>, hasRecipient: bool)
  {
    |names| == |members| && forall k :: 0 <= k < |names| ==>
      InItem(names[k]) && (names[k].Recipient? ==> hasRecipient) && members[k] == Member(names[k], ItemTypeOf(names[k]))
  }

  lemma ItemTables()
    ensures ItemTable(OFFER_JOINED, OFFER_ITEM_MEMBERS, false)
    ensures ItemTable(CONSIDERATION_JOINED, CONSIDERATION_ITEM_MEMBERS, true)
  {
  }

  lemma ItemMemberAgrees(i: Item, hasRecipient: bool, name: Name)
    requires ItemEncodable(i, hasRecipient) && IsUint8(i.itemType) && InItem(name) && (name.Recipient? ==> hasRecipient)
    ensures ItemPart(i, name) == EncodeAtom(ItemValue(RereadItem(i), name), ItemTypeOf(name))
  {
    match name {
      case ItemType => PadType(i.itemType);
      case Token => PadAddress(i.token);
      case IdentifierOrCriteria => PadUint(i.identifierOrCriteria);
      case StartAmount => PadUint(i.startAmount);
      case EndAmount => PadUint(i.endAmount);
      case Recipient => PadAddress(i.recipient);
      case _ =>
    }
  }

  lemma ItemAgrees(i: Item, hasRecipient: bool, names: seq<Name>, members: seq<Member>)
    requires ItemEncodable(i, hasRecipient) && IsUint8(i.itemType) && ItemTable(names, members, hasRecipient)
    ensures ItemParts(i, names) == EncodeItem(RereadItem(i), members)
  {
    forall k | 0 <= k < |names| ensures ItemParts(i, names)[k] == EncodeItem(RereadItem(i), members)[k] {
      ItemMemberAgrees(i, hasRecipient, names[k]);
    }
  }

  lemma ItemsAgree(h: Hash, typeHash: Word, items: seq<Item>, hasRecipient: bool, names: seq<Name>, members: seq<Member>)
    requires forall k :: 0 <= k < |items| ==> ItemEncodable(items[k], hasRecipient) && IsUint8(items[k].itemType)
    requires ItemTable(names, members, hasRecipient)
    ensures ItemHashes(h, typeHash, items, names) == HashItems(h, typeHash, RereadItems(items), members)
  {
    forall k | 0 <= k < |items|
      ensures ItemHash(h, typeHash, items[k], names) == HashItem(h, typeHash, RereadItem(items[k]), members)
    {
      ItemAgrees(items[k], hasRecipient, names, members);
    }
  }

  /** The type of a member of the order. */
  function TypeOf(name: Name): Type
  {
    match name
    case Offerer => Address
    case Zone => Address
    case Offer => OfferItems
    case Consideration => ConsiderationItems
    case OrderType => Uint8
    case ZoneHash => Bytes32
    case ConduitKey => Bytes32
    case _ => Uint256
  }

  predicate InOrder(name: Name)
  {
    !name.ItemType? && !name.Token? && !name.IdentifierOrCriteria? && !name.StartAmount? && !name.EndAmount? && !name.Recipient?
  }

  /** The texts of the two computations agree member by member. */
  lemma MemberAgrees(h: Hash, th: TypeHashes, o: OrderComponents, name: Name)
    requires InRange(o) && InOrder(name)
    ensures OrderPart(h, th, o, name) == EncodeMember(h, th, OrderValue(Reread(o), name), TypeOf(name))
  {
    match name {
      case Offerer => PadAddress(o.offerer);
      case Zone => PadAddress(o.zone);
      case Offer =>
        ItemTables();
        ItemsAgree(h, th.offerItem, o.offer, false, OFFER_JOINED, OFFER_ITEM_MEMBERS);
      case Consideration =>
        ItemTables();
        ItemsAgree(h, th.considerationItem, o.consideration, true, CONSIDERATION_JOINED, CONSIDERATION_ITEM_MEMBERS);
      case OrderType => PadType(o.orderType);
      case StartTime => PadUint(o.startTime);
      case EndTime => PadUint(o.endTime);
      case Salt => PadSalt(o.salt);
      case Counter => PadUint(o.counter);
      case _ =>
    }
  }

  /** The table lists the members in the order in which they are joined, with their
      types. */
  lemma TableOrder(k: nat)
    requires k < 11
    ensures |ORDER_MEMBERS| == |JOINED| == 11
    ensures ORDER_MEMBERS[k] == Member(JOINED[k], TypeOf(JOINED[k])) && InOrder(JOINED[k])
  {
  }

  lemma PartAgrees(h: Hash, th: TypeHashes, o: OrderComponents, names: seq<Name>, members: seq<Member>, k: nat)
    requires InRange(o) && k < |names| == |members| && InOrder(names[k]) && members[k] == Member(names[k], TypeOf(names[k]))
    ensures OrderParts(h, th, o, names)[k] == EncodeOrder(h, th, Reread(o), members)[k]
  {
    MemberAgrees(h, th, o, names[k]);
  }

  /** The hand-written hash is the hashStruct of the order with its types reread. */
  lemma HandWrittenIsReread(h: Hash, th: TypeHashes, o: OrderComponents)
    requires InRange(o)
    ensures CalculateOrderHash(h, th, o) == HashStruct(h, th, Reread(o))
  {
    TableOrder(0);
    var a, b := OrderParts(h, th, o, JOINED), EncodeOrder(h, th, Reread(o), ORDER_MEMBERS);
    forall k | 0 <= k < 11 ensures a[k] == b[k] {
      TableOrder(k);
      PartAgrees(h, th, o, JOINED, ORDER_MEMBERS, k);
    }
    assert a == b;
  }

  /** All item and order types are below 10. */
  ghost predicate TypesBelowTen(o: OrderComponents)
  {
    && o.orderType < 10
    && (forall i :: i in o.offer ==> i.itemType < 10)
    && (forall i :: i in o.consideration ==> i.itemType < 10)
  }

  /** Rereading changes nothing exactly if all types are below 10. */
  lemma RereadSame(o: OrderComponents)
    ensures Reread(o) == o <==> TypesBelowTen(o)
  {
    DecimalReread(o.orderType);
    RereadItemsSame(o.offer);
    RereadItemsSame(o.consideration);
  }

  lemma RereadItemsSame(items: seq<Item>)
    ensures RereadItems(items) == items <==> forall i :: i in items ==> i.itemType < 10
  {
    forall k | 0 <= k < |items| ensures RereadItem(items[k]) == items[k] <==> items[k].itemType < 10 {
      DecimalReread(items[k].itemType);
    }
    if RereadItems(items) == items {
      forall k | 0 <= k < |items| ensures items[k].itemType < 10 {
        assert RereadItems(items)[k] == RereadItem(items[k]);
      }
    }
  }

  // ---------- what equal hashes say ----------

  /** The values an atomic type encodes to 32 bytes without loss. */
  predicate Fits(v: Value, typ: Type)
  {
    match typ
    case Uint8 => v.Uint? && IsUint256(v.n)
    case Uint256 => v.Uint? && IsUint256(v.n)
    case Address => v.Raw? && IsAddress(v.text)
    case Bytes32 => v.Raw? && IsBytes32(v.text)
    case _ => false
  }

  lemma AtomIsWord(v: Value, typ: Type)
    requires Fits(v, typ)
    ensures |EncodeAtom(v, typ)| == 64
  {
  }

  /** encodeData of an atomic member determines the value. */
  lemma AtomInjective(v: Value, w: Value, typ: Type)
    requires Fits(v, typ) && Fits(w, typ) && EncodeAtom(v, typ) == EncodeAtom(w, typ)
    ensures v == w
  {
    match typ {
      case Uint8 => DigitsInjective(v.n, w.n);
      case Uint256 => DigitsInjective(v.n, w.n);
      case Address => AddressInjective(v.text, w.text);
      case _ =>
    }
  }

  lemma DigitsInjective(m: nat, n: nat)
    requires IsUint256(m) && IsUint256(n) && Digits(m, 64) == Digits(n, 64)
    ensures m == n
  {
    DigitsNumber(m, 64);
    DigitsNumber(n, 64);
  }

  lemma AddressInjective(t: Text, u: Text)
    requires IsAddress(t) && IsAddress(u) && Digits(Number(t), 64) == Digits(Number(u), 64)
    ensures t == u
  {
    PadIsDigits(t);
    PadIsDigits(u);
    DigitsInjective(Number(t), Number(u));
    NumberDigits(t);
    NumberDigits(u);
  }

  lemma SaltInjective(t: Text, u: Text)
    requires IsBytes32(t) && IsBytes32(u) && Number(t) == Number(u)
    ensures t == u
  {
    NumberDigits(t);
    NumberDigits(u);
  }

  lemma ItemFits(i: Item, hasRecipient: bool, names: seq<Name>, members: seq<Member>, k: nat)
    requires ItemEncodable(i, hasRecipient) && ItemTable(names, members, hasRecipient) && k < |members|
    ensures Fits(ItemValue(i, members[k].name), members[k].typ)
  {
    assert InItem(names[k]);
  }

  /** Equal encodings of items agree in every member of the table. */
  lemma ItemInjective(i: Item, j: Item, hasRecipient: bool, names: seq<Name>, members: seq<Member>, k: nat)
    requires ItemEncodable(i, hasRecipient) && ItemEncodable(j, hasRecipient) && ItemTable(names, members, hasRecipient)
    requires EncodeItem(i, members) == EncodeItem(j, members) && k < |names|
    ensures ItemValue(i, names[k]) == ItemValue(j, names[k])
  {
    ItemFits(i, hasRecipient, names, members, k);
    ItemFits(j, hasRecipient, names, members, k);
    assert EncodeItem(i, members)[k] == EncodeItem(j, members)[k];
    AtomInjective(ItemValue(i, names[k]), ItemValue(j, names[k]), members[k].typ);
  }

  /** The table names every member an item of its kind has. */
  ghost predicate NamesAll(names: seq<Name>, hasRecipient: bool)
  {
    && ItemType in names && Token in names && IdentifierOrCriteria in names && StartAmount in names && EndAmount in names
    && (hasRecipient ==> Recipient in names)
  }

  lemma TablesNameAll()
    ensures NamesAll(OFFER_JOINED, false) && NamesAll(CONSIDERATION_JOINED, true)
  {
    assert OFFER_JOINED[0] == ItemType && OFFER_JOINED[1] == Token && OFFER_JOINED[2] == IdentifierOrCriteria
      && OFFER_JOINED[3] == StartAmount && OFFER_JOINED[4] == EndAmount;
    assert CONSIDERATION_JOINED[..5] == OFFER_JOINED && CONSIDERATION_JOINED[5] == Recipient;
  }

  lemma SameItem(i: Item, j: Item, hasRecipient: bool, names: seq<Name>)
    requires ItemEncodable(i, hasRecipient) && ItemEncodable(j, hasRecipient) && NamesAll(names, hasRecipient)
    requires forall k :: 0 <= k < |names| ==> ItemValue(i, names[k]) == ItemValue(j, names[k])
    ensures i == j
  {
    SameField(i, j, names, ItemType);
    SameField(i, j, names, Token);
    SameField(i, j, names, IdentifierOrCriteria);
    SameField(i, j, names, StartAmount);
    SameField(i, j, names, EndAmount);
    if hasRecipient { SameField(i, j, names, Recipient); }
  }

  lemma SameField(i: Item, j: Item, names: seq<Name>, name: Name)
    requires name in names && forall k :: 0 <= k < |names| ==> ItemValue(i, names[k]) == ItemValue(j, names[k])
    ensures name.ItemType? ==> i.itemType == j.itemType
    ensures name.Token? ==> i.token == j.token
    ensures name.IdentifierOrCriteria? ==> i.identifierOrCriteria == j.identifierOrCriteria
    ensures name.StartAmount? ==> i.startAmount == j.startAmount
    ensures name.EndAmount? ==> i.endAmount == j.endAmount
    ensures name.Recipient? ==> i.recipient == j.recipient
  {
    var k :| 0 <= k < |names| && names[k] == name;
  }

  lemma EncodedItemWords(typeHash: Word, i: Item, hasRecipient: bool, names: seq<Name>, members: seq<Member>)
    requires ItemEncodable(i, hasRecipient) && ItemTable(names, members, hasRecipient)
    ensures AllWords([typeHash] + EncodeItem(i, members))
  {
    forall k | 0 <= k < |members| ensures |EncodeItem(i, members)[k]| == 64 {
      ItemFits(i, hasRecipient, names, members, k);
      AtomIsWord(ItemValue(i, members[k].name), members[k].typ);
    }
  }

  /** Items with the same hashStruct are the same item, or reveal a collision. */
  lemma HashItemInjective(h: Hash, typeHash: Word, i: Item, j: Item, hasRecipient: bool, names: seq<Name>, members: seq<Member>)
    returns (x: Text, y: Text)
    requires ItemEncodable(i, hasRecipient) && ItemEncodable(j, hasRecipient)
    requires ItemTable(names, members, hasRecipient) && NamesAll(names, hasRecipient)
    requires HashItem(h, typeHash, i, members) == HashItem(h, typeHash, j, members)
    ensures i == j || Collision(h, x, y)
  {
    var a, b := [typeHash] + EncodeItem(i, members), [typeHash] + EncodeItem(j, members);
    x, y := Join(a), Join(b);
    if x == y {
      EncodedItemWords(typeHash, i, hasRecipient, names, members);
      EncodedItemWords(typeHash, j, hasRecipient, names, members);
      JoinInjective(a, b);
      assert EncodeItem(i, members) == a[1..] && EncodeItem(j, members) == b[1..];
      forall k | 0 <= k < |names| ensures ItemValue(i, names[k]) == ItemValue(j, names[k]) {
        ItemInjective(i, j, hasRecipient, names, members, k);
      }
      SameItem(i, j, hasRecipient, names);
    }
  }

  /** Arrays of items with the same hash are the same, or reveal a collision. */
  lemma ArrayInjective(h: Hash, typeHash: Word, s: seq<Item>, t: seq<Item>, hasRecipient: bool, names: seq<Name>, members: seq<Member>)
    returns (x: Text, y: Text)
    requires forall k :: 0 <= k < |s| ==> ItemEncodable(s[k], hasRecipient)
    requires forall k :: 0 <= k < |t| ==> ItemEncodable(t[k], hasRecipient)
    requires ItemTable(names, members, hasRecipient) && NamesAll(names, hasRecipient)
    requires h(Join(HashItems(h, typeHash, s, members))) == h(Join(HashItems(h, typeHash, t, members)))
    ensures s == t || Collision(h, x, y)
  {
    var a, b := HashItems(h, typeHash, s, members), HashItems(h, typeHash, t, members);
    x, y := Join(a), Join(b);
    if x == y {
      JoinInjective(a, b);
      assert |s| == |t|;
      if s != t {
        var k :| 0 <= k < |s| && s[k] != t[k];
        assert a[k] == b[k];
        x, y := HashItemInjective(h, typeHash, s[k], t[k], hasRecipient, names, members);
      }
    }
  }

  lemma MemberIsWord(h: Hash, th: TypeHashes, o: OrderComponents, name: Name)
    requires Encodable(o) && InOrder(name)
    ensures |EncodeMember(h, th, OrderValue(o, name), TypeOf(name))| == 64
    ensures !name.Offer? && !name.Consideration? ==> Fits(OrderValue(o, name), TypeOf(name))
  {
    if name.Salt? { NumberDigits(o.salt); }
  }

  lemma EncodedOrderAt(h: Hash, th: TypeHashes, o: OrderComponents, k: nat)
    requires Encodable(o) && k < 11
    ensures EncodeOrder(h, th, o, ORDER_MEMBERS)[k] == EncodeMember(h, th, OrderValue(o, JOINED[k]), TypeOf(JOINED[k]))
    ensures |EncodeOrder(h, th, o, ORDER_MEMBERS)[k]| == 64
  {
    TableOrder(k);
    MemberIsWord(h, th, o, JOINED[k]);
  }

  /** Orders with the same encoding agree in every member that is not an array. */
  lemma MemberInjective(h: Hash, th: TypeHashes, o: OrderComponents, p: OrderComponents, k: nat)
    requires Encodable(o) && Encodable(p) && k < 11
    requires EncodeOrder(h, th, o, ORDER_MEMBERS) == EncodeOrder(h, th, p, ORDER_MEMBERS)
    ensures EncodeMember(h, th, OrderValue(o, JOINED[k]), TypeOf(JOINED[k])) == EncodeMember(h, th, OrderValue(p, JOINED[k]), TypeOf(JOINED[k]))
    ensures !JOINED[k].Offer? && !JOINED[k].Consideration? ==> OrderValue(o, JOINED[k]) == OrderValue(p, JOINED[k])
  {
    var name := JOINED[k];
    TableOrder(k);
    EncodedOrderAt(h, th, o, k);
    EncodedOrderAt(h, th, p, k);
    MemberIsWord(h, th, o, name);
    MemberIsWord(h, th, p, name);
    if !name.Offer? && !name.Consideration? {
      AtomInjective(OrderValue(o, name), OrderValue(p, name), TypeOf(name));
    }
  }

  lemma SameScalar(h: Hash, th: TypeHashes, o: OrderComponents, p: OrderComponents, k: nat)
    requires Encodable(o) && Encodable(p) && k < 11 && !JOINED[k].Offer? && !JOINED[k].Consideration?
    requires EncodeOrder(h, th, o, ORDER_MEMBERS) == EncodeOrder(h, th, p, ORDER_MEMBERS)
    ensures OrderValue(o, JOINED[k]) == OrderValue(p, JOINED[k])
  {
    MemberInjective(h, th, o, p, k);
  }

  lemma SameScalars(h: Hash, th: TypeHashes, o: OrderComponents, p: OrderComponents)
    requires Encodable(o) && Encodable(p)
    requires EncodeOrder(h, th, o, ORDER_MEMBERS) == EncodeOrder(h, th, p, ORDER_MEMBERS)
    ensures o.(offer := [], consideration := []) == p.(offer := [], consideration := [])
  {
    forall k | 0 <= k < 11 && !JOINED[k].Offer? && !JOINED[k].Consideration?
      ensures OrderValue(o, JOINED[k]) == OrderValue(p, JOINED[k])
    {
      SameScalar(h, th, o, p, k);
    }
    ScalarsOfValues(o, p);
  }

  lemma ScalarsOfValues(o: OrderComponents, p: OrderComponents)
    requires IsBytes32(o.salt) && IsBytes32(p.salt)
    requires forall k :: 0 <= k < 11 && !JOINED[k].Offer? && !JOINED[k].Consideration? ==>
      OrderValue(o, JOINED[k]) == OrderValue(p, JOINED[k])
    ensures o.(offer := [], consideration := []) == p.(offer := [], consideration := [])
  {
    FirstScalars(o, p);
    LastScalars(o, p);
  }

  lemma FirstScalars(o: OrderComponents, p: OrderComponents)
    requires forall k :: 0 <= k < 11 && !JOINED[k].Offer? && !JOINED[k].Consideration? ==>
      OrderValue(o, JOINED[k]) == OrderValue(p, JOINED[k])
    ensures o.offerer == p.offerer && o.zone == p.zone && o.orderType == p.orderType && o.startTime == p.startTime
  {
    assert JOINED[0] == Offerer && JOINED[1] == Zone && JOINED[4] == OrderType && JOINED[5] == StartTime;
  }

  lemma LastScalars(o: OrderComponents, p: OrderComponents)
    requires IsBytes32(o.salt) && IsBytes32(p.salt)
    requires forall k :: 0 <= k < 11 && !JOINED[k].Offer? && !JOINED[k].Consideration? ==>
      OrderValue(o, JOINED[k]) == OrderValue(p, JOINED[k])
    ensures o.endTime == p.endTime && o.zoneHash == p.zoneHash && o.salt == p.salt
    ensures o.conduitKey == p.conduitKey && o.counter == p.counter
  {
    assert JOINED[6] == EndTime && JOINED[7] == ZoneHash && JOINED[8] == Salt && JOINED[9] == ConduitKey && JOINED[10] == Counter;
    SaltInjective(o.salt, p.salt);
  }

  lemma SameArrayHashes(h: Hash, th: TypeHashes, o: OrderComponents, p: OrderComponents)
    requires Encodable(o) && Encodable(p)
    requires EncodeOrder(h, th, o, ORDER_MEMBERS) == EncodeOrder(h, th, p, ORDER_MEMBERS)
    ensures h(Join(HashItems(h, th.offerItem, o.offer, OFFER_ITEM_MEMBERS)))
         == h(Join(HashItems(h, th.offerItem, p.offer, OFFER_ITEM_MEMBERS)))
    ensures h(Join(HashItems(h, th.considerationItem, o.consideration, CONSIDERATION_ITEM_MEMBERS)))
         == h(Join(HashItems(h, th.considerationItem, p.consideration, CONSIDERATION_ITEM_MEMBERS)))
  {
    MemberInjective(h, th, o, p, 2);
    MemberInjective(h, th, o, p, 3);
  }

  lemma SameEncoding(h: Hash, th: TypeHashes, o: OrderComponents, p: OrderComponents)
    requires Encodable(o) && Encodable(p)
    requires Join([th.order] + EncodeOrder(h, th, o, ORDER_MEMBERS)) == Join([th.order] + EncodeOrder(h, th, p, ORDER_MEMBERS))
    ensures EncodeOrder(h, th, o, ORDER_MEMBERS) == EncodeOrder(h, th, p, ORDER_MEMBERS)
  {
    TableOrder(0);
    var a, b := EncodeOrder(h, th, o, ORDER_MEMBERS), EncodeOrder(h, th, p, ORDER_MEMBERS);
    forall k | 0 <= k < 11 ensures |a[k]| == 64 && |b[k]| == 64 {
      EncodedOrderAt(h, th, o, k);
      EncodedOrderAt(h, th, p, k);
    }
    JoinInjective([th.order] + a, [th.order] + b);
    assert a == ([th.order] + a)[1..] && b == ([th.order] + b)[1..];
  }

  lemma SameArrays(h: Hash, th: TypeHashes, o: OrderComponents, p: OrderComponents) returns (x: Text, y: Text)
    requires Encodable(o) && Encodable(p)
    requires EncodeOrder(h, th, o, ORDER_MEMBERS) == EncodeOrder(h, th, p, ORDER_MEMBERS)
    ensures (o.offer == p.offer && o.consideration == p.consideration) || Collision(h, x, y)
  {
    SameArrayHashes(h, th, o, p);
    ItemTables();
    TablesNameAll();
    x, y := ArrayInjective(h, th.offerItem, o.offer, p.offer, false, OFFER_JOINED, OFFER_ITEM_MEMBERS);
    if o.offer == p.offer {
      x, y := ArrayInjective(h, th.considerationItem, o.consideration, p.consideration, true,
                             CONSIDERATION_JOINED, CONSIDERATION_ITEM_MEMBERS);
    }
  }

  /** Orders with any number of items that have the same hashStruct are the same order,
      or reveal a collision of the hash. */
  lemma HashStructInjective(h: Hash, th: TypeHashes, o: OrderComponents, p: OrderComponents) returns (x: Text, y: Text)
    requires Encodable(o) && Encodable(p)
    requires HashStruct(h, th, o) == HashStruct(h, th, p)
    ensures o == p || Collision(h, x, y)
  {
    x := Join([th.order] + EncodeOrder(h, th, o, ORDER_MEMBERS));
    y := Join([th.order] + EncodeOrder(h, th, p, ORDER_MEMBERS));
    if x == y {
      SameEncoding(h, th, o, p);
      SameScalars(h, th, o, p);
      x, y := SameArrays(h, th, o, p);
    }
  }

  lemma RereadEncodable(o: OrderComponents)
    requires InRange(o)
    ensures Encodable(Reread(o))
  {
    PadType(o.orderType);
    forall k | 0 <= k < |o.offer| ensures ItemEncodable(Reread(o).offer[k], false) {
      PadType(o.offer[k].itemType);
    }
    forall k | 0 <= k < |o.consideration| ensures ItemEncodable(Reread(o).consideration[k], true) {
      PadType(o.consideration[k].itemType);
    }
  }

  lemma RereadInjective(o: OrderComponents, p: OrderComponents)
    requires Reread(o) == Reread(p)
    ensures o == p
  {
    DecimalInjective(o.orderType, p.orderType);
    RereadItemsInjective(o.offer, p.offer);
    RereadItemsInjective(o.consideration, p.consideration);
    assert o.zone == Reread(o).zone == p.zone;
  }

  lemma RereadItemsInjective(s: seq<Item>, t: seq<Item>)
    requires RereadItems(s) == RereadItems(t)
    ensures s == t
  {
    assert |s| == |t|;
    forall k | 0 <= k < |s| ensures s[k] == t[k] {
      assert RereadItems(s)[k] == RereadItems(t)[k];
      DecimalInjective(s[k].itemType, t[k].itemType);
    }
  }

  /** The hand-written hash agrees with EIP-712 when all types are below 10; when some
      type is not, agreement would be a collision of the hash. */
  lemma AgreesWithTypedData(h: Hash, th: TypeHashes, o: OrderComponents) returns (x: Text, y: Text)
    requires InRange(o)
    ensures TypesBelowTen(o) ==> CalculateOrderHash(h, th, o) == HashStruct(h, th, o)
    ensures !TypesBelowTen(o) && CalculateOrderHash(h, th, o) == HashStruct(h, th, o) ==> Collision(h, x, y)
  {
    x, y := [], [];
    HandWrittenIsReread(h, th, o);
    RereadSame(o);
    if !TypesBelowTen(o) && CalculateOrderHash(h, th, o) == HashStruct(h, th, o) {
      RereadEncodable(o);
      x, y := HashStructInjective(h, th, o, Reread(o));
    }
  }

  /** An order without items whose order type is 10. */
  function TypeTen(): OrderComponents
  {
    OrderComponents(Zeros(40), Zeros(40), [], [], 10, 0, 0, Zeros(64), Zeros(64), Zeros(64), 0)
  }

  /** Type 10 is written as 10 in hexadecimal, which is 16: the hand-written hash is that
      of another order, and equals hashStruct of this one only in a collision. */
  lemma TypeTenDiffers(h: Hash, th: TypeHashes) returns (x: Text, y: Text)
    ensures InRange(TypeTen())
    ensures CalculateOrderHash(h, th, TypeTen()) == HashStruct(h, th, TypeTen().(orderType := 16))
    ensures CalculateOrderHash(h, th, TypeTen()) == HashStruct(h, th, TypeTen()) ==> Collision(h, x, y)
  {
    var o := TypeTen();
    assert InRange(o);
    DecimalStep(10);
    assert Number(Decimal(1)) == 1 by { DecimalReread(1); }
    HandWrittenIsReread(h, th, o);
    assert Reread(o).offer == [] && Reread(o).consideration == [];
    x, y := AgreesWithTypedData(h, th, o);
  }

  /** Two in-range orders with the same hand-written hash are the same order, or reveal a
      collision. */
  lemma OrderHashInjective(h: Hash, th: TypeHashes, o: OrderComponents, p: OrderComponents) returns (x: Text, y: Text)
    requires InRange(o) && InRange(p)
    requires CalculateOrderHash(h, th, o) == CalculateOrderHash(h, th, p)
    ensures o == p || Collision(h, x, y)
  {
    HandWrittenIsReread(h, th, o);
    HandWrittenIsReread(h, th, p);
    RereadEncodable(o);
    RereadEncodable(p);
    x, y := HashStructInjective(h, th, Reread(o), Reread(p));
    if Reread(o) == Reread(p) {
      RereadInjective(o, p);
    }
  }
}
