/**
 The texts behind the hash of an order, place by place: what stands in each 64 digits of
 the text of an item, of a list of items and of the order.
 */
module OrderPlaces {
  import opened Hex
  import opened OrderHash

  /** How a type is written: as a number of the same value, or as something else. */
  type Written = nat -> nat

  /** The text of an item: the type hash, then its members. */
  ghost predicate ItemAt(i: Item, typeHash: Word, hasRecipient: bool, written: Written, t: Text)
  {
    && |t| == (if hasRecipient then 448 else 384)
    && t[0..64] == typeHash
    && Number(t[64..128]) == written(i.itemType)
    && Number(t[128..192]) == Number(i.token)
    && Number(t[192..256]) == i.identifierOrCriteria
    && Number(t[256..320]) == i.startAmount
    && Number(t[320..384]) == i.endAmount
    && (hasRecipient ==> Number(t[384..448]) == Number(i.recipient))
  }

  /** The text of a list of items: the hashes of the items' texts, in their order. */
  ghost predicate ItemsAt(h: Hash, items: seq<Item>, typeHash: Word, hasRecipient: bool, written: Written, texts: seq<Text>, t: Text)
  {
    && |texts| == |items| && |t| == 64 * |items|
    && forall k: nat :: k < |items| ==>
         ItemAt(items[k], typeHash, hasRecipient, written, texts[k]) && HashedAt(h, t, k, texts[k])
  }

  /** The hash of a text is in place k of t. */
  ghost predicate HashedAt(h: Hash, t: Text, k: nat, hashed: Text)
  {
    64 * k + 64 <= |t| && t[64 * k..64 * k + 64] == h(hashed)
  }

  /** The text of an order: the type hash, then its members, lists of items by the hash of
      their texts. */
  ghost predicate OrderAt(h: Hash, th: TypeHashes, o: OrderComponents, written: Written, offer: Text, consideration: Text, t: Text)
  {
    && |t| == 768
    && t[0..64] == th.order
    && Number(t[64..128]) == Number(o.offerer)
    && Number(t[128..192]) == Number(o.zone)
    && t[192..256] == h(offer)
    && t[256..320] == h(consideration)
    && Number(t[320..384]) == written(o.orderType)
    && Number(t[384..448]) == o.startTime
    && Number(t[448..512]) == o.endTime
    && t[512..576] == o.zoneHash
    && t[576..640] == o.salt
    && t[640..704] == o.conduitKey
    && Number(t[704..768]) == o.counter
  }

  /** The texts of an order, from those of the items up. */
  datatype Texts = Texts(offerItems: seq<Text>, considerationItems: seq<Text>, offer: Text, consideration: Text, order: Text)

  ghost predicate LaidOut(h: Hash, th: TypeHashes, o: OrderComponents, written: Written, ts: Texts)
  {
    && ItemsAt(h, o.offer, th.offerItem, false, written, ts.offerItems, ts.offer)
    && ItemsAt(h, o.consideration, th.considerationItem, true, written, ts.considerationItems, ts.consideration)
    && OrderAt(h, th, o, written, ts.offer, ts.consideration, ts.order)
  }

  // ---------- numbers in 64 digits ----------

  lemma DigitsRead(n: nat)
    requires IsUint256(n)
    ensures Number(Digits(n, 64)) == n
  {
    DigitsNumber(n, 64);
  }

  lemma AddressRead(t: Text)
    requires IsAddress(t)
    ensures Number(Digits(Number(t), 64)) == Number(t)
  {
    PadIsDigits(t);
    DigitsRead(Number(t));
  }

  // ---------- items ----------

  function ItemText(i: Item, typeHash: Word, members: seq<Member>): Text
  {
    Join([typeHash] + EncodeItem(i, members))
  }

  lemma ItemPlace(i: Item, typeHash: Word, hasRecipient: bool, names: seq<Name>, members: seq<Member>, k: nat, from: nat, to: nat)
    requires ItemEncodable(i, hasRecipient) && ItemTable(names, members, hasRecipient)
    requires k < |members| && from == 64 * (k + 1) && to == from + 64
    ensures |ItemText(i, typeHash, members)| == 64 * (|members| + 1)
    ensures ItemText(i, typeHash, members)[from..to] == EncodeAtom(ItemValue(i, names[k]), ItemTypeOf(names[k]))
  {
    EncodedItemWords(typeHash, i, hasRecipient, names, members);
    JoinAt([typeHash] + EncodeItem(i, members), k + 1, from, to);
  }

  lemma ItemHead(i: Item, typeHash: Word, hasRecipient: bool, names: seq<Name>, members: seq<Member>)
    requires ItemEncodable(i, hasRecipient) && ItemTable(names, members, hasRecipient)
    ensures |ItemText(i, typeHash, members)| == 64 * (|members| + 1) && ItemText(i, typeHash, members)[0..64] == typeHash
  {
    EncodedItemWords(typeHash, i, hasRecipient, names, members);
    JoinAt([typeHash] + EncodeItem(i, members), 0, 0, 64);
  }

  /** A table whose names are in the given order. */
  ghost predicate InOrderOf(names: seq<Name>, hasRecipient: bool)
  {
    && |names| == (if hasRecipient then 6 else 5)
    && names[0] == ItemType && names[1] == Token && names[2] == IdentifierOrCriteria && names[3] == StartAmount
    && names[4] == EndAmount && (hasRecipient ==> names[5] == Recipient)
  }

  lemma ItemNumberAt(i: Item, typeHash: Word, hasRecipient: bool, names: seq<Name>, members: seq<Member>,
                     k: nat, name: Name, n: nat, t: Text, from: nat, to: nat)
    requires ItemEncodable(i, hasRecipient) && ItemTable(names, members, hasRecipient) && t == ItemText(i, typeHash, members)
    requires k < |members| && names[k] == name && from == 64 * (k + 1) && to == from + 64
    requires ItemValue(i, name) == Uint(n) && IsUint256(n) && !name.Token? && !name.Recipient?
    ensures to <= |t| && Number(t[from..to]) == n
  {
    ItemPlace(i, typeHash, hasRecipient, names, members, k, from, to);
    DigitsRead(n);
  }

  lemma ItemAddressAt(i: Item, typeHash: Word, hasRecipient: bool, names: seq<Name>, members: seq<Member>,
                      k: nat, name: Name, a: Text, t: Text, from: nat, to: nat)
    requires ItemEncodable(i, hasRecipient) && ItemTable(names, members, hasRecipient) && t == ItemText(i, typeHash, members)
    requires k < |members| && names[k] == name && from == 64 * (k + 1) && to == from + 64
    requires ItemValue(i, name) == Raw(a) && IsAddress(a) && (name.Token? || name.Recipient?)
    ensures to <= |t| && Number(t[from..to]) == Number(a)
  {
    ItemPlace(i, typeHash, hasRecipient, names, members, k, from, to);
    AddressRead(a);
  }

  lemma ItemLaidOut(i: Item, typeHash: Word, hasRecipient: bool, names: seq<Name>, members: seq<Member>, t: Text)
    requires ItemEncodable(i, hasRecipient) && ItemTable(names, members, hasRecipient) && InOrderOf(names, hasRecipient)
    requires t == ItemText(i, typeHash, members)
    ensures ItemAt(i, typeHash, hasRecipient, n => n, t)
  {
    ItemHead(i, typeHash, hasRecipient, names, members);
    ItemNumberAt(i, typeHash, hasRecipient, names, members, 0, ItemType, i.itemType, t, 64, 128);
    ItemAddressAt(i, typeHash, hasRecipient, names, members, 1, Token, i.token, t, 128, 192);
    ItemNumberAt(i, typeHash, hasRecipient, names, members, 2, IdentifierOrCriteria, i.identifierOrCriteria, t, 192, 256);
    ItemNumberAt(i, typeHash, hasRecipient, names, members, 3, StartAmount, i.startAmount, t, 256, 320);
    ItemNumberAt(i, typeHash, hasRecipient, names, members, 4, EndAmount, i.endAmount, t, 320, 384);
    if hasRecipient {
      ItemAddressAt(i, typeHash, hasRecipient, names, members, 5, Recipient, i.recipient, t, 384, 448);
    }
  }

  // ---------- lists of items ----------

  function ItemTexts(items: seq<Item>, typeHash: Word, members: seq<Member>): (r: seq<Text>)
    ensures |r| == |items|
  {
    seq(|items|, k requires 0 <= k < |items| => ItemText(items[k], typeHash, members))
  }

  lemma ItemsLaidOut(h: Hash, items: seq<Item>, typeHash: Word, hasRecipient: bool, names: seq<Name>, members: seq<Member>, t: Text)
    requires forall k :: 0 <= k < |items| ==> ItemEncodable(items[k], hasRecipient)
    requires ItemTable(names, members, hasRecipient) && InOrderOf(names, hasRecipient)
    requires t == Join(HashItems(h, typeHash, items, members))
    ensures ItemsAt(h, items, typeHash, hasRecipient, n => n, ItemTexts(items, typeHash, members), t)
  {
    var hashes := HashItems(h, typeHash, items, members);
    JoinLength(hashes);
    forall k: nat | k < |items|
      ensures ItemAt(items[k], typeHash, hasRecipient, n => n, ItemTexts(items, typeHash, members)[k])
      ensures HashedAt(h, t, k, ItemTexts(items, typeHash, members)[k])
    {
      ItemLaidOut(items[k], typeHash, hasRecipient, names, members, ItemText(items[k], typeHash, members));
      JoinAt(hashes, k, 64 * k, 64 * k + 64);
    }
  }

  // ---------- the order ----------

  function OrderText(h: Hash, th: TypeHashes, o: OrderComponents): Text
  {
    Join([th.order] + EncodeOrder(h, th, o, ORDER_MEMBERS))
  }

  lemma OrderPlace(h: Hash, th: TypeHashes, o: OrderComponents, k: nat, from: nat, to: nat)
    requires Encodable(o) && k < 11 && from == 64 * (k + 1) && to == from + 64
    ensures |OrderText(h, th, o)| == 768
    ensures OrderText(h, th, o)[from..to] == EncodeMember(h, th, OrderValue(o, JOINED[k]), TypeOf(JOINED[k]))
  {
    OrderWords(h, th, o);
    EncodedOrderAt(h, th, o, k);
    JoinAt([th.order] + EncodeOrder(h, th, o, ORDER_MEMBERS), k + 1, from, to);
  }

  lemma OrderWords(h: Hash, th: TypeHashes, o: OrderComponents)
    requires Encodable(o)
    ensures var parts := [th.order] + EncodeOrder(h, th, o, ORDER_MEMBERS); |parts| == 12 && AllWords(parts)
  {
    TableOrder(0);
    forall k: nat | k < 11 ensures |EncodeOrder(h, th, o, ORDER_MEMBERS)[k]| == 64 {
      EncodedOrderAt(h, th, o, k);
    }
  }

  lemma OrderHead(h: Hash, th: TypeHashes, o: OrderComponents)
    requires Encodable(o)
    ensures |OrderText(h, th, o)| == 768 && OrderText(h, th, o)[0..64] == th.order
  {
    OrderWords(h, th, o);
    JoinAt([th.order] + EncodeOrder(h, th, o, ORDER_MEMBERS), 0, 0, 64);
  }

  function ListText(h: Hash, items: seq<Item>, typeHash: Word, members: seq<Member>): Text
  {
    Join(HashItems(h, typeHash, items, members))
  }

  function OfferText(h: Hash, th: TypeHashes, o: OrderComponents): Text
  {
    ListText(h, o.offer, th.offerItem, OFFER_ITEM_MEMBERS)
  }

  function ConsiderationText(h: Hash, th: TypeHashes, o: OrderComponents): Text
  {
    ListText(h, o.consideration, th.considerationItem, CONSIDERATION_ITEM_MEMBERS)
  }

  lemma OrderNumberAt(h: Hash, th: TypeHashes, o: OrderComponents, k: nat, name: Name, n: nat, t: Text, from: nat, to: nat)
    requires Encodable(o) && t == OrderText(h, th, o)
    requires k < 11 && JOINED[k] == name && from == 64 * (k + 1) && to == from + 64
    requires OrderValue(o, name) == Uint(n) && IsUint256(n)
    ensures to <= |t| && Number(t[from..to]) == n && t[from..to] == Digits(n, 64)
  {
    OrderPlace(h, th, o, k, from, to);
    DigitsRead(n);
  }

  lemma OrderAddressAt(h: Hash, th: TypeHashes, o: OrderComponents, k: nat, name: Name, a: Text, t: Text, from: nat, to: nat)
    requires Encodable(o) && t == OrderText(h, th, o)
    requires k < 11 && JOINED[k] == name && from == 64 * (k + 1) && to == from + 64
    requires OrderValue(o, name) == Raw(a) && IsAddress(a) && (name.Offerer? || name.Zone?)
    ensures to <= |t| && Number(t[from..to]) == Number(a)
  {
    OrderPlace(h, th, o, k, from, to);
    AddressRead(a);
  }

  lemma OrderWordAt(h: Hash, th: TypeHashes, o: OrderComponents, k: nat, name: Name, w: Text, t: Text, from: nat, to: nat)
    requires Encodable(o) && t == OrderText(h, th, o)
    requires k < 11 && JOINED[k] == name && from == 64 * (k + 1) && to == from + 64
    requires OrderValue(o, name) == Raw(w) && (name.ZoneHash? || name.ConduitKey?)
    ensures to <= |t| && t[from..to] == w
  {
    OrderPlace(h, th, o, k, from, to);
  }

  lemma AddressPlaces(h: Hash, th: TypeHashes, o: OrderComponents, t: Text)
    requires Encodable(o) && t == OrderText(h, th, o) && |t| == 768
    ensures Number(t[64..128]) == Number(o.offerer) && Number(t[128..192]) == Number(o.zone)
  {
    OrderAddressAt(h, th, o, 0, Offerer, o.offerer, t, 64, 128);
    OrderAddressAt(h, th, o, 1, Zone, o.zone, t, 128, 192);
  }

  lemma OfferPlace(h: Hash, th: TypeHashes, o: OrderComponents, t: Text)
    requires Encodable(o) && t == OrderText(h, th, o) && |t| == 768
    ensures t[192..256] == h(OfferText(h, th, o))
  {
    OrderPlace(h, th, o, 2, 192, 256);
  }

  lemma ConsiderationPlace(h: Hash, th: TypeHashes, o: OrderComponents, t: Text)
    requires Encodable(o) && t == OrderText(h, th, o) && |t| == 768
    ensures t[256..320] == h(ConsiderationText(h, th, o))
  {
    OrderPlace(h, th, o, 3, 256, 320);
  }

  lemma MiddlePlaces(h: Hash, th: TypeHashes, o: OrderComponents, t: Text)
    requires Encodable(o) && t == OrderText(h, th, o) && |t| == 768
    ensures Number(t[320..384]) == o.orderType && Number(t[384..448]) == o.startTime && Number(t[448..512]) == o.endTime
  {
    OrderNumberAt(h, th, o, 4, OrderType, o.orderType, t, 320, 384);
    OrderNumberAt(h, th, o, 5, StartTime, o.startTime, t, 384, 448);
    OrderNumberAt(h, th, o, 6, EndTime, o.endTime, t, 448, 512);
  }

  lemma WordPlaces(h: Hash, th: TypeHashes, o: OrderComponents, t: Text)
    requires Encodable(o) && t == OrderText(h, th, o) && |t| == 768
    ensures t[512..576] == o.zoneHash && t[640..704] == o.conduitKey
  {
    OrderWordAt(h, th, o, 7, ZoneHash, o.zoneHash, t, 512, 576);
    OrderWordAt(h, th, o, 9, ConduitKey, o.conduitKey, t, 640, 704);
  }

  lemma SaltPlace(h: Hash, th: TypeHashes, o: OrderComponents, t: Text)
    requires Encodable(o) && t == OrderText(h, th, o) && |t| == 768
    ensures t[576..640] == o.salt
  {
    NumberDigits(o.salt);
    OrderNumberAt(h, th, o, 8, Salt, Number(o.salt), t, 576, 640);
  }

  lemma CounterPlace(h: Hash, th: TypeHashes, o: OrderComponents, t: Text)
    requires Encodable(o) && t == OrderText(h, th, o) && |t| == 768
    ensures Number(t[704..768]) == o.counter
  {
    OrderNumberAt(h, th, o, 10, Counter, o.counter, t, 704, 768);
  }

  /** hashStruct hashes the texts of the order, every member at its place. */
  lemma HashStructPlaces(h: Hash, th: TypeHashes, o: OrderComponents) returns (ts: Texts)
    requires Encodable(o)
    ensures LaidOut(h, th, o, n => n, ts) && HashStruct(h, th, o) == h(ts.order)
  {
    var offer, consideration, t := OfferText(h, th, o), ConsiderationText(h, th, o), OrderText(h, th, o);
    ts := Texts(ItemTexts(o.offer, th.offerItem, OFFER_ITEM_MEMBERS),
                ItemTexts(o.consideration, th.considerationItem, CONSIDERATION_ITEM_MEMBERS), offer, consideration, t);
    ItemTables();
    ItemsLaidOut(h, o.offer, th.offerItem, false, OFFER_JOINED, OFFER_ITEM_MEMBERS, offer);
    ItemsLaidOut(h, o.consideration, th.considerationItem, true, CONSIDERATION_JOINED, CONSIDERATION_ITEM_MEMBERS, consideration);
    OrderHead(h, th, o);
    AddressPlaces(h, th, o, t);
    OfferPlace(h, th, o, t);
    ConsiderationPlace(h, th, o, t);
    MiddlePlaces(h, th, o, t);
    WordPlaces(h, th, o, t);
    SaltPlace(h, th, o, t);
    CounterPlace(h, th, o, t);
  }

  // ---------- the hand-written computation ----------

  /** The hand-written computation hashes the same texts, but for the types, of which it
      writes the decimal digits. */
  lemma HandWrittenPlaces(h: Hash, th: TypeHashes, o: OrderComponents) returns (ts: Texts)
    requires InRange(o)
    ensures LaidOut(h, th, o, n => Number(Decimal(n)), ts) && CalculateOrderHash(h, th, o) == h(ts.order)
  {
    HandWrittenIsReread(h, th, o);
    RereadEncodable(o);
    ts := HashStructPlaces(h, th, Reread(o));
    RereadItemsAt(h, o.offer, th.offerItem, false, ts.offerItems, ts.offer);
    RereadItemsAt(h, o.consideration, th.considerationItem, true, ts.considerationItems, ts.consideration);
  }

  lemma RereadItemsAt(h: Hash, items: seq<Item>, typeHash: Word, hasRecipient: bool, texts: seq<Text>, t: Text)
    requires ItemsAt(h, RereadItems(items), typeHash, hasRecipient, n => n, texts, t)
    ensures ItemsAt(h, items, typeHash, hasRecipient, n => Number(Decimal(n)), texts, t)
  {
    forall k: nat | k < |items| ensures ItemAt(items[k], typeHash, hasRecipient, n => Number(Decimal(n)), texts[k]) {
      assert RereadItems(items)[k] == RereadItem(items[k]);
    }
  }
}
