/**
 The type strings of an order: the ones written out by hand, and EIP-712's encodeType
 computed from the type table and spelled.
 */
module OrderTypes {
  import opened Hex
  import opened Sequences
  import opened OrderHash

  /** One member of a declaration, as type and name. */
  datatype Field = Field(typ: string, name: string)

  /** One struct of a type string: Name(type name,type name,...). */
  datatype Declaration = Declaration(struct: string, fields: seq<Field>)

  function FieldText(f: Field): string
  {
    f.typ + " " + f.name
  }

  function RenderFields(fields: seq<Field>): string
  {
    if fields == [] then ""
    else if |fields| == 1 then FieldText(fields[0])
    else FieldText(fields[0]) + "," + RenderFields(fields[1..])
  }

  function RenderOne(d: Declaration): string
  {
    d.struct + "(" + RenderFields(d.fields) + ")"
  }

  function Render(ds: seq<Declaration>): string
  {
    if ds == [] then "" else RenderOne(ds[0]) + Render(ds[1..])
  }

  /** A hash of the UTF-8 bytes of a string. */
  type StringHash = string -> Word

  // ---------- as written by hand ----------

  const OFFER_ITEM_STRING :=
    "OfferItem(uint8 itemType,address token,"
    + "uint256 identifierOrCriteria,uint256 startAmount,"
    + "uint256 endAmount)"

  const CONSIDERATION_ITEM_STRING :=
    "ConsiderationItem(uint8 itemType,address token,"
    + "uint256 identifierOrCriteria,uint256 startAmount,"
    + "uint256 endAmount,address recipient)"

  const ORDER_PARTIAL_STRING :=
    "OrderComponents(address offerer,address zone,"
    + "OfferItem[] offer,ConsiderationItem[] consideration,"
    + "uint8 orderType,uint256 startTime,"
    + "uint256 endTime,bytes32 zoneHash,"
    + "uint256 salt,bytes32 conduitKey,"
    + "uint256 counter)"

  /** The three type hashes of the hand-written computation. */
  function WrittenTypeHashes(k: StringHash): TypeHashes
  {
    TypeHashes(
      k(ORDER_PARTIAL_STRING + CONSIDERATION_ITEM_STRING + OFFER_ITEM_STRING),
      k(OFFER_ITEM_STRING),
      k(CONSIDERATION_ITEM_STRING))
  }

  // ---------- as EIP-712 computes them from the table ----------

  function MemberText(name: Name): string
  {
    match name
    case Offerer => "offerer"
    case Zone => "zone"
    case Offer => "offer"
    case Consideration => "consideration"
    case OrderType => "orderType"
    case StartTime => "startTime"
    case EndTime => "endTime"
    case ZoneHash => "zoneHash"
    case Salt => "salt"
    case ConduitKey => "conduitKey"
    case Counter => "counter"
    case ItemType => "itemType"
    case Token => "token"
    case IdentifierOrCriteria => "identifierOrCriteria"
    case StartAmount => "startAmount"
    case EndAmount => "endAmount"
    case Recipient => "recipient"
  }

  function FieldsOf(members: seq<Member>): seq<Field>
  {
    seq(|members|, k requires 0 <= k < |members| => Field(members[k].typ.Text(), MemberText(members[k].name)))
  }

  /** The declaration of the struct an array type refers to. */
  function Referenced(typ: Type): seq<Declaration>
  {
    match typ
    case OfferItems => [Declaration("OfferItem", FieldsOf(OFFER_ITEM_MEMBERS))]
    case ConsiderationItems => [Declaration("ConsiderationItem", FieldsOf(CONSIDERATION_ITEM_MEMBERS))]
    case _ => []
  }

  /** The declarations members refer to, in the order of the members. */
  function References(members: seq<Member>): seq<Declaration>
  {
    if members == [] then [] else Referenced(members[0].typ) + References(members[1..])
  }

  predicate Precedes(a: string, b: string)
  {
    b != "" && (a == "" || a[0] < b[0] || (a[0] == b[0] && Precedes(a[1..], b[1..])))
  }

  predicate NamedBefore(d: Declaration, e: Declaration)
  {
    Precedes(d.struct, e.struct)
  }

  /** encodeType: the struct itself, then the structs it refers to, sorted by name. */
  function EncodeType(struct: string, members: seq<Member>): seq<Declaration>
  {
    [Declaration(struct, FieldsOf(members))] + SortBy(NamedBefore, References(members))
  }

  function TableTypeHashes(k: StringHash): TypeHashes
  {
    TypeHashes(
      k(Render(EncodeType("OrderComponents", ORDER_MEMBERS))),
      k(Render(EncodeType("OfferItem", OFFER_ITEM_MEMBERS))),
      k(Render(EncodeType("ConsiderationItem", CONSIDERATION_ITEM_MEMBERS))))
  }

  // ---------- the two compared ----------

  /** The declarations of the table, spelled out. */
  const OFFER_ITEM := Declaration("OfferItem", [
    Field("uint8", "itemType"), Field("address", "token"), Field("uint256", "identifierOrCriteria"),
    Field("uint256", "startAmount"), Field("uint256", "endAmount")])

  const CONSIDERATION_ITEM := Declaration("ConsiderationItem", [
    Field("uint8", "itemType"), Field("address", "token"), Field("uint256", "identifierOrCriteria"),
    Field("uint256", "startAmount"), Field("uint256", "endAmount"), Field("address", "recipient")])

  const ORDER := Declaration("OrderComponents", [
    Field("address", "offerer"), Field("address", "zone"), Field("OfferItem[]", "offer"),
    Field("ConsiderationItem[]", "consideration"), Field("uint8", "orderType"), Field("uint256", "startTime"),
    Field("uint256", "endTime"), Field("bytes32", "zoneHash"), Field("uint256", "salt"),
    Field("bytes32", "conduitKey"), Field("uint256", "counter")])

  lemma OfferItemFields()
    ensures FieldsOf(OFFER_ITEM_MEMBERS) == OFFER_ITEM.fields
  {
  }

  lemma ConsiderationItemFields()
    ensures FieldsOf(CONSIDERATION_ITEM_MEMBERS) == CONSIDERATION_ITEM.fields
  {
  }

  lemma OrderFields()
    ensures FieldsOf(ORDER_MEMBERS) == ORDER.fields
  {
  }

  predicate Atomic(typ: Type)
  {
    !typ.OfferItems? && !typ.ConsiderationItems?
  }

  lemma {:induction false} NoReferences(members: seq<Member>)
    requires forall k :: 0 <= k < |members| ==> Atomic(members[k].typ)
    ensures References(members) == []
  {
    if members != [] {
      assert Atomic(members[0].typ);
      NoReferences(members[1..]);
    }
  }

  lemma {:induction false} ReferencesConcat(a: seq<Member>, b: seq<Member>)
    ensures References(a + b) == References(a) + References(b)
  {
    if a == [] {
      assert a + b == b;
    } else {
      assert (a + b)[1..] == a[1..] + b;
      ReferencesConcat(a[1..], b);
    }
  }

  lemma TwoReferences(front: seq<Member>, x: Member, y: Member, back: seq<Member>)
    requires References(front) == [] && References(back) == []
    ensures References(front + [x, y] + back) == Referenced(x.typ) + Referenced(y.typ)
  {
    ReferencesConcat(front + [x, y], back);
    ReferencesConcat(front, [x, y]);
    assert [x, y] == [x] + [y];
    ReferencesConcat([x], [y]);
    One(x);
    One(y);
  }

  lemma OrderSplit()
    ensures ORDER_MEMBERS == ORDER_MEMBERS[..2] + [Member(Offer, OfferItems), Member(Consideration, ConsiderationItems)] + ORDER_MEMBERS[4..]
    ensures forall k :: 0 <= k < 2 ==> Atomic(ORDER_MEMBERS[k].typ)
    ensures forall k :: 4 <= k < 11 ==> Atomic(ORDER_MEMBERS[k].typ)
    ensures |ORDER_MEMBERS| == 11
  {
  }

  /** The order refers to its two item structs, in the table's order. */
  lemma OrderReferences()
    ensures References(ORDER_MEMBERS) == Referenced(OfferItems) + Referenced(ConsiderationItems)
  {
    OrderSplit();
    var m := ORDER_MEMBERS;
    NoReferences(m[..2]);
    NoReferences(m[4..]);
    TwoReferences(m[..2], Member(Offer, OfferItems), Member(Consideration, ConsiderationItems), m[4..]);
  }

  lemma One(member: Member)
    ensures References([member]) == Referenced(member.typ)
  {
    assert References([member][1..]) == [];
  }

  /** Sorting puts the consideration item before the offer item. */
  lemma ItemsSorted(offer: Declaration, consideration: Declaration)
    requires offer.struct == "OfferItem" && consideration.struct == "ConsiderationItem"
    ensures SortBy(NamedBefore, [offer, consideration]) == [consideration, offer]
  {
    assert [offer, consideration][1..] == [consideration];
    assert InsertBy(NamedBefore, consideration, []) == [consideration];
    assert SortBy(NamedBefore, [consideration]) == [consideration];
    assert NamedBefore(consideration, offer);
    assert InsertBy(NamedBefore, offer, []) == [offer];
  }

  lemma OfferItemType()
    ensures EncodeType("OfferItem", OFFER_ITEM_MEMBERS) == [OFFER_ITEM]
  {
    OfferItemFields();
    NoReferences(OFFER_ITEM_MEMBERS);
  }

  lemma ConsiderationItemType()
    ensures EncodeType("ConsiderationItem", CONSIDERATION_ITEM_MEMBERS) == [CONSIDERATION_ITEM]
  {
    ConsiderationItemFields();
    NoReferences(CONSIDERATION_ITEM_MEMBERS);
  }

  lemma OrderTypeReferences()
    ensures SortBy(NamedBefore, References(ORDER_MEMBERS)) == [CONSIDERATION_ITEM, OFFER_ITEM]
  {
    OfferItemFields();
    ConsiderationItemFields();
    OrderReferences();
    ItemsSorted(OFFER_ITEM, CONSIDERATION_ITEM);
  }

  lemma OrderComponentsType()
    ensures EncodeType("OrderComponents", ORDER_MEMBERS) == [ORDER, CONSIDERATION_ITEM, OFFER_ITEM]
  {
    OrderFields();
    OrderTypeReferences();
  }

  // ---------- the texts ----------

  /** Two fields and the commas after them. */
  lemma TwoFields(fields: seq<Field>, two: string)
    requires |fields| > 2 && two == FieldText(fields[0]) + "," + FieldText(fields[1]) + ","
    ensures RenderFields(fields) == two + RenderFields(fields[2..])
  {
    OneField(fields);
    OneField(fields[1..]);
    assert fields[1..][1..] == fields[2..];
    JoinTwo(FieldText(fields[0]), FieldText(fields[1]), ",", RenderFields(fields[2..]));
  }

  lemma OneField(fields: seq<Field>)
    requires |fields| > 1
    ensures RenderFields(fields) == FieldText(fields[0]) + "," + RenderFields(fields[1..])
  {
  }

  lemma JoinTwo(a: string, b: string, comma: string, rest: string)
    ensures a + comma + (b + comma + rest) == (a + comma + b + comma) + rest
  {
    Regroup(b, comma, rest);
    Regroup(a + comma, b, comma + rest);
    Regroup(a + comma + b, comma, rest);
  }

  lemma Regroup(a: string, b: string, c: string)
    ensures a + (b + c) == (a + b) + c
  {
  }

  lemma LastField(f: Field)
    ensures RenderFields([f]) == FieldText(f)
  {
  }

  lemma TypeAndToken()
    ensures FieldText(Field("uint8", "itemType")) + "," + FieldText(Field("address", "token")) + ","
      == "uint8 itemType,address token,"
  {
    TypeAndTokenTexts();
    TypeAndTokenJoined();
  }

  lemma TypeAndTokenTexts()
    ensures FieldText(Field("uint8", "itemType")) == "uint8 itemType"
    ensures FieldText(Field("address", "token")) == "address token"
  {
  }

  lemma TypeAndTokenJoined()
    ensures "uint8 itemType" + "," + "address token" + "," == "uint8 itemType,address token,"
  {
    assert "uint8 itemType" + "," == "uint8 itemType,";
    assert "uint8 itemType," + "address token" == "uint8 itemType,address token";
  }

  lemma CriteriaAndStart()
    ensures FieldText(Field("uint256", "identifierOrCriteria")) + "," + FieldText(Field("uint256", "startAmount")) + ","
      == "uint256 identifierOrCriteria,uint256 startAmount,"
  {
    CriteriaAndStartTexts();
    CriteriaAndStartJoined();
  }

  lemma CriteriaAndStartTexts()
    ensures FieldText(Field("uint256", "identifierOrCriteria")) == "uint256 identifierOrCriteria"
    ensures FieldText(Field("uint256", "startAmount")) == "uint256 startAmount"
  {
  }

  lemma CriteriaAndStartJoined()
    ensures "uint256 identifierOrCriteria" + "," + "uint256 startAmount" + "," == "uint256 identifierOrCriteria,uint256 startAmount,"
  {
    assert "uint256 identifierOrCriteria" + "," == "uint256 identifierOrCriteria,";
    assert "uint256 identifierOrCriteria," + "uint256 startAmount" == "uint256 identifierOrCriteria,uint256 startAmount";
  }

  lemma EndAndRecipient()
    ensures FieldText(Field("uint256", "endAmount")) + "," + FieldText(Field("address", "recipient")) == "uint256 endAmount,address recipient"
    ensures FieldText(Field("uint256", "endAmount")) == "uint256 endAmount"
  {
    assert "uint256" + " " + "endAmount" == "uint256 endAmount";
    assert "address" + " " + "recipient" == "address recipient";
  }

  lemma OffererAndZone()
    ensures FieldText(Field("address", "offerer")) + "," + FieldText(Field("address", "zone")) + ","
      == "address offerer,address zone,"
  {
    OffererAndZoneTexts();
    OffererAndZoneJoined();
  }

  lemma OffererAndZoneTexts()
    ensures FieldText(Field("address", "offerer")) == "address offerer"
    ensures FieldText(Field("address", "zone")) == "address zone"
  {
  }

  lemma OffererAndZoneJoined()
    ensures "address offerer" + "," + "address zone" + "," == "address offerer,address zone,"
  {
    assert "address offerer" + "," == "address offerer,";
    assert "address offerer," + "address zone" == "address offerer,address zone";
  }

  lemma OfferAndConsideration()
    ensures FieldText(Field("OfferItem[]", "offer")) + "," + FieldText(Field("ConsiderationItem[]", "consideration")) + ","
      == "OfferItem[] offer,ConsiderationItem[] consideration,"
  {
    OfferAndConsiderationTexts();
    OfferAndConsiderationJoined();
  }

  lemma OfferAndConsiderationTexts()
    ensures FieldText(Field("OfferItem[]", "offer")) == "OfferItem[] offer"
    ensures FieldText(Field("ConsiderationItem[]", "consideration")) == "ConsiderationItem[] consideration"
  {
  }

  lemma OfferAndConsiderationJoined()
    ensures "OfferItem[] offer" + "," + "ConsiderationItem[] consideration" + "," == "OfferItem[] offer,ConsiderationItem[] consideration,"
  {
    assert "OfferItem[] offer" + "," == "OfferItem[] offer,";
    assert "OfferItem[] offer," + "ConsiderationItem[] consideration" == "OfferItem[] offer,ConsiderationItem[] consideration";
  }

  lemma TypeAndStart()
    ensures FieldText(Field("uint8", "orderType")) + "," + FieldText(Field("uint256", "startTime")) + ","
      == "uint8 orderType,uint256 startTime,"
  {
    TypeAndStartTexts();
    TypeAndStartJoined();
  }

  lemma TypeAndStartTexts()
    ensures FieldText(Field("uint8", "orderType")) == "uint8 orderType"
    ensures FieldText(Field("uint256", "startTime")) == "uint256 startTime"
  {
  }

  lemma TypeAndStartJoined()
    ensures "uint8 orderType" + "," + "uint256 startTime" + "," == "uint8 orderType,uint256 startTime,"
  {
    assert "uint8 orderType" + "," == "uint8 orderType,";
    assert "uint8 orderType," + "uint256 startTime" == "uint8 orderType,uint256 startTime";
  }

  lemma EndAndZoneHash()
    ensures FieldText(Field("uint256", "endTime")) + "," + FieldText(Field("bytes32", "zoneHash")) + ","
      == "uint256 endTime,bytes32 zoneHash,"
  {
    EndAndZoneHashTexts();
    EndAndZoneHashJoined();
  }

  lemma EndAndZoneHashTexts()
    ensures FieldText(Field("uint256", "endTime")) == "uint256 endTime"
    ensures FieldText(Field("bytes32", "zoneHash")) == "bytes32 zoneHash"
  {
  }

  lemma EndAndZoneHashJoined()
    ensures "uint256 endTime" + "," + "bytes32 zoneHash" + "," == "uint256 endTime,bytes32 zoneHash,"
  {
    assert "uint256 endTime" + "," == "uint256 endTime,";
    assert "uint256 endTime," + "bytes32 zoneHash" == "uint256 endTime,bytes32 zoneHash";
  }

  lemma SaltAndConduit()
    ensures FieldText(Field("uint256", "salt")) + "," + FieldText(Field("bytes32", "conduitKey")) + ","
      == "uint256 salt,bytes32 conduitKey,"
  {
    SaltAndConduitTexts();
    SaltAndConduitJoined();
  }

  lemma SaltAndConduitTexts()
    ensures FieldText(Field("uint256", "salt")) == "uint256 salt"
    ensures FieldText(Field("bytes32", "conduitKey")) == "bytes32 conduitKey"
  {
  }

  lemma SaltAndConduitJoined()
    ensures "uint256 salt" + "," + "bytes32 conduitKey" + "," == "uint256 salt,bytes32 conduitKey,"
  {
    assert "uint256 salt" + "," == "uint256 salt,";
    assert "uint256 salt," + "bytes32 conduitKey" == "uint256 salt,bytes32 conduitKey";
  }

  lemma CounterText()
    ensures FieldText(Field("uint256", "counter")) == "uint256 counter"
  {
    assert "uint256" + " " + "counter" == "uint256 counter";
  }

  /** Moving the parentheses of a text in six parts to its ends. */
  lemma Enclose(head: string, a: string, b: string, c: string, d: string, e: string, f: string)
    ensures head + (a + (b + (c + (d + (e + f))))) + ")" == (head + a) + b + c + d + e + (f + ")")
  {
    Regroup(a, b, c + (d + (e + f)));
    Regroup(a + b, c, d + (e + f));
    Regroup(a + b + c, d, e + f);
    Regroup(a + b + c + d, e, f);
    EncloseFlat(head, a, b, c, d, e, f);
  }

  lemma EncloseFlat(head: string, a: string, b: string, c: string, d: string, e: string, f: string)
    ensures head + (a + b + c + d + e + f) + ")" == (head + a) + b + c + d + e + (f + ")")
  {
    Regroup(head, a + b + c + d + e, f);
    Regroup(head, a + b + c + d, e);
    Regroup(head, a + b + c, d);
    Regroup(head, a + b, c);
    Regroup(head, a, b);
    Regroup(head + a + b + c + d + e, f, ")");
  }

  lemma EncloseThree(head: string, a: string, b: string, c: string)
    ensures head + (a + (b + c)) + ")" == (head + a) + b + (c + ")")
  {
    Regroup(a, b, c);
    Regroup(head, a + b, c);
    Regroup(head, a, b);
    Regroup(head + a + b, c, ")");
  }

  lemma OfferItemText()
    ensures RenderOne(OFFER_ITEM) == OFFER_ITEM_STRING
  {
    var fields := OFFER_ITEM.fields;
    TypeAndToken();
    CriteriaAndStart();
    EndAndRecipient();
    TwoFields(fields, "uint8 itemType,address token,");
    TwoFields(fields[2..], "uint256 identifierOrCriteria,uint256 startAmount,");
    assert fields[2..][2..] == [fields[4]];
    LastField(fields[4]);
    OfferItemSegments();
    EncloseThree("OfferItem(", "uint8 itemType,address token,", "uint256 identifierOrCriteria,uint256 startAmount,", "uint256 endAmount");
  }

  lemma OfferItemSegments()
    ensures "OfferItem" + "(" == "OfferItem("
    ensures "OfferItem(" + "uint8 itemType,address token," == "OfferItem(uint8 itemType,address token,"
    ensures "uint256 endAmount" + ")" == "uint256 endAmount)"
  {
  }

  lemma ConsiderationItemText()
    ensures RenderOne(CONSIDERATION_ITEM) == CONSIDERATION_ITEM_STRING
  {
    var fields := CONSIDERATION_ITEM.fields;
    TypeAndToken();
    CriteriaAndStart();
    EndAndRecipient();
    TwoFields(fields, "uint8 itemType,address token,");
    TwoFields(fields[2..], "uint256 identifierOrCriteria,uint256 startAmount,");
    LastTwo(fields[2..][2..], fields[4], fields[5]);
    ConsiderationItemSegments();
    EncloseThree("ConsiderationItem(", "uint8 itemType,address token,", "uint256 identifierOrCriteria,uint256 startAmount,",
                 "uint256 endAmount,address recipient");
  }

  lemma LastTwo(fields: seq<Field>, f: Field, g: Field)
    requires fields == [f, g]
    ensures RenderFields(fields) == FieldText(f) + "," + FieldText(g)
  {
    assert fields[1..] == [g];
  }

  lemma ConsiderationItemSegments()
    ensures "ConsiderationItem" + "(" == "ConsiderationItem("
    ensures "ConsiderationItem(" + "uint8 itemType,address token," == "ConsiderationItem(uint8 itemType,address token,"
    ensures "uint256 endAmount,address recipient" + ")" == "uint256 endAmount,address recipient)"
  {
  }

  lemma OrderText()
    ensures RenderOne(ORDER) == ORDER_PARTIAL_STRING
  {
    OrderPairs();
    ElevenFields(ORDER.fields, "address offerer,address zone,", "OfferItem[] offer,ConsiderationItem[] consideration,",
                 "uint8 orderType,uint256 startTime,", "uint256 endTime,bytes32 zoneHash,", "uint256 salt,bytes32 conduitKey,",
                 "uint256 counter");
    OrderSegments();
    Enclose("OrderComponents(", "address offerer,address zone,", "OfferItem[] offer,ConsiderationItem[] consideration,",
            "uint8 orderType,uint256 startTime,", "uint256 endTime,bytes32 zoneHash,", "uint256 salt,bytes32 conduitKey,",
            "uint256 counter");
  }

  function Pair(fields: seq<Field>, k: nat): string
    requires k + 1 < |fields|
  {
    FieldText(fields[k]) + "," + FieldText(fields[k + 1]) + ","
  }

  lemma OrderPairs()
    ensures Pair(ORDER.fields, 0) == "address offerer,address zone,"
    ensures Pair(ORDER.fields, 2) == "OfferItem[] offer,ConsiderationItem[] consideration,"
    ensures Pair(ORDER.fields, 4) == "uint8 orderType,uint256 startTime,"
    ensures Pair(ORDER.fields, 6) == "uint256 endTime,bytes32 zoneHash,"
    ensures Pair(ORDER.fields, 8) == "uint256 salt,bytes32 conduitKey,"
    ensures FieldText(ORDER.fields[10]) == "uint256 counter"
  {
    OffererAndZone();
    OfferAndConsideration();
    TypeAndStart();
    EndAndZoneHash();
    SaltAndConduit();
    CounterText();
  }

  lemma ElevenFields(f: seq<Field>, a: string, b: string, c: string, d: string, e: string, last: string)
    requires |f| == 11
    requires a == Pair(f, 0) && b == Pair(f, 2) && c == Pair(f, 4) && d == Pair(f, 6) && e == Pair(f, 8)
    requires last == FieldText(f[10])
    ensures RenderFields(f) == a + (b + (c + (d + (e + last))))
  {
    TwoFields(f, a);
    TwoFields(f[2..], b);
    assert f[2..][2..] == f[4..];
    TwoFields(f[4..], c);
    assert f[4..][2..] == f[6..];
    TwoFields(f[6..], d);
    assert f[6..][2..] == f[8..];
    TwoFields(f[8..], e);
    assert f[8..][2..] == [f[10]];
    LastField(f[10]);
  }

  lemma OrderSegments()
    ensures "OrderComponents" + "(" == "OrderComponents("
    ensures "OrderComponents(" + "address offerer,address zone," == "OrderComponents(address offerer,address zone,"
    ensures "uint256 counter" + ")" == "uint256 counter)"
  {
  }

  lemma RenderEach(ds: seq<Declaration>)
    requires ds != []
    ensures Render(ds) == RenderOne(ds[0]) + Render(ds[1..])
    ensures |ds| == 1 ==> Render(ds) == RenderOne(ds[0])
  {
    if |ds| == 1 { assert RenderOne(ds[0]) + "" == RenderOne(ds[0]); }
  }

  /** The three flat strings are encodeType of the table, spelled. */
  lemma TypeStringsAgree()
    ensures Render(EncodeType("OfferItem", OFFER_ITEM_MEMBERS)) == OFFER_ITEM_STRING
    ensures Render(EncodeType("ConsiderationItem", CONSIDERATION_ITEM_MEMBERS)) == CONSIDERATION_ITEM_STRING
    ensures Render(EncodeType("OrderComponents", ORDER_MEMBERS))
      == ORDER_PARTIAL_STRING + CONSIDERATION_ITEM_STRING + OFFER_ITEM_STRING
  {
    OfferItemType();
    OfferItemText();
    RenderEach([OFFER_ITEM]);
    ConsiderationItemType();
    ConsiderationItemText();
    RenderEach([CONSIDERATION_ITEM]);
    OrderComponentsType();
    OrderText();
    RenderThree(ORDER, CONSIDERATION_ITEM, OFFER_ITEM);
  }

  lemma RenderThree(a: Declaration, b: Declaration, c: Declaration)
    ensures Render([a, b, c]) == RenderOne(a) + RenderOne(b) + RenderOne(c)
  {
    RenderEach([a, b, c]);
    assert [a, b, c][1..] == [b, c] && [b, c][1..] == [c];
    RenderEach([b, c]);
    RenderEach([c]);
    Regroup(RenderOne(a), RenderOne(b), RenderOne(c));
  }

  /** So the type hashes are the same. */
  lemma TypeHashesAgree(k: StringHash)
    ensures WrittenTypeHashes(k) == TableTypeHashes(k)
  {
    TypeStringsAgree();
  }

  /** The hand-written order hash, type hashes included, is EIP-712's hash of the order
      by the table, for orders whose types are below 10. */
  lemma OrderHashIsTyped(h: Hash, k: StringHash, o: OrderComponents)
    requires InRange(o) && TypesBelowTen(o)
    ensures CalculateOrderHash(h, WrittenTypeHashes(k), o) == HashStruct(h, TableTypeHashes(k), o)
  {
    TypeHashesAgree(k);
    var _, _ := AgreesWithTypedData(h, WrittenTypeHashes(k), o);
  }
}
