/** Joining the user and card records of a device for export (`mergeUsersAndCards`,
    src/domain/identity-export/identity-export-service.ts, and src/domain/identity/identity-records.ts). */
module ExportMerge {
  import opened Common
  import opened InsertionMap

  /** A value of a device record; numbers and other values carry the text `String(value)` gives. */
  datatype Json = Undefined | Null | Str(text: string) | Num(text: string) | Bool(value: bool) | Other(text: string)

  type Fields = map<string, Json>

  function Field(r: Fields, name: string): Json { if name in r then r[name] else Undefined }

  function BoolText(b: bool): string { if b then "true" else "false" }

  /** `String(value)`. */
  function StringOf(v: Json): string {
    match v
    case Undefined => "undefined"
    case Null => "null"
    case Bool(b) => BoolText(b)
    case Str(s) => s
    case Num(s) => s
    case Other(s) => s
  }

  function ReadOptionalString(v: Json): Option<string> {
    match v
    case Undefined => None
    case Null => None
    case Str(s) => Some(s)
    case Num(s) => Some(s)
    case Bool(b) => Some(BoolText(b))
    case Other(_) => None
  }

  function Or(a: Option<string>, b: Option<string>): Option<string> { if a.Some? then a else b }

  datatype Source = AccessUser | AccessCard

  datatype ExportUser = ExportUser(
    deviceId: string,
    terminalPersonId: Option<string>,
    displayName: Option<string>,
    userType: Option<string>,
    userStatus: Option<string>,
    authority: Option<string>,
    citizenIdNo: Option<string>,
    validFrom: Option<string>,
    validTo: Option<string>,
    cardNo: Option<string>,
    cardName: Option<string>,
    sourceSummary: seq<Source>,
    rawUserPayload: Option<string>,
    rawCardPayload: Option<string>)

  function ToExportUserKey(deviceId: string, terminalPersonId: Option<string>, cardNo: Option<string>): string {
    deviceId + ":" +
    if terminalPersonId.Some? then terminalPersonId.value
    else "card:" + if cardNo.Some? then cardNo.value else ""
  }

  function ToBaseExportUser(stringify: Fields -> string, deviceId: string, r: Fields): ExportUser {
    ExportUser(deviceId, ReadOptionalString(Field(r, "UserID")),
               Or(ReadOptionalString(Field(r, "UserName")), ReadOptionalString(Field(r, "Name"))),
               ReadOptionalString(Field(r, "UserType")), ReadOptionalString(Field(r, "UserStatus")),
               ReadOptionalString(Field(r, "Authority")), ReadOptionalString(Field(r, "CitizenIDNo")),
               ReadOptionalString(Field(r, "ValidFrom")), ReadOptionalString(Field(r, "ValidTo")),
               None, None, [AccessUser], Some(stringify(r)), None)
  }

  function MergeCardIntoExportUser(stringify: Fields -> string, user: ExportUser, card: Fields): ExportUser {
    user.(cardNo := Or(ReadOptionalString(Field(card, "CardNo")), user.cardNo),
          cardName := Or(ReadOptionalString(Field(card, "CardName")), user.cardName),
          displayName := Or(user.displayName, ReadOptionalString(Field(card, "CardName"))),
          sourceSummary := if AccessCard in user.sourceSummary then user.sourceSummary
                           else user.sourceSummary + [AccessCard],
          rawCardPayload := Some(stringify(card)))
  }

  function ToCardOnlyExportUser(stringify: Fields -> string, deviceId: string, card: Fields): ExportUser {
    ExportUser(deviceId, ReadOptionalString(Field(card, "UserID")), ReadOptionalString(Field(card, "CardName")),
               None, None, None, None, None, None,
               ReadOptionalString(Field(card, "CardNo")), ReadOptionalString(Field(card, "CardName")),
               [AccessCard], None, Some(stringify(card)))
  }

  function UserKey(deviceId: string, r: Fields): string {
    ToExportUserKey(deviceId, ReadOptionalString(Field(r, "UserID")), None)
  }

  /** Unlike a user's, a card's id that is null becomes the text "null". */
  function CardKey(deviceId: string, card: Fields): string {
    var id, no := Field(card, "UserID"), Field(card, "CardNo");
    ToExportUserKey(deviceId,
                    if id == Undefined then None else Some(StringOf(id)),
                    if no == Undefined then None else Some(StringOf(no)))
  }

  // ---------------------------------------------------------------- the two loops

  function WithUsers(stringify: Fields -> string, deviceId: string, users: seq<Fields>): OMap<string, ExportUser> {
    if users == [] then Empty()
    else
      var last := users[|users| - 1];
      WithUsers(stringify, deviceId, users[..|users| - 1])
        .Set(UserKey(deviceId, last), ToBaseExportUser(stringify, deviceId, last))
  }

  function AddCard(stringify: Fields -> string, deviceId: string, m: OMap<string, ExportUser>,
                   card: Fields): OMap<string, ExportUser>
  {
    var key := CardKey(deviceId, card);
    m.Set(key, match m.Get(key)
               case Some(user) => MergeCardIntoExportUser(stringify, user, card)
               case None => ToCardOnlyExportUser(stringify, deviceId, card))
  }

  function Merged(stringify: Fields -> string, deviceId: string, users: seq<Fields>,
                  cards: seq<Fields>): OMap<string, ExportUser>
  {
    if cards == [] then WithUsers(stringify, deviceId, users)
    else AddCard(stringify, deviceId, Merged(stringify, deviceId, users, cards[..|cards| - 1]), cards[|cards| - 1])
  }

  method MergeUsersAndCards(stringify: Fields -> string, deviceId: string, users: seq<Fields>, cards: seq<Fields>)
    returns (out: seq<ExportUser>)
    ensures Merged(stringify, deviceId, users, cards).Valid()
    ensures out == Merged(stringify, deviceId, users, cards).Values()
  {
    var merged: OMap<string, ExportUser> := Empty();
    for i := 0 to |users|
      invariant merged == WithUsers(stringify, deviceId, users[..i])
    {
      assert users[..i + 1][..i] == users[..i];
      var normalized := ToBaseExportUser(stringify, deviceId, users[i]);
      merged := merged.Set(ToExportUserKey(deviceId, normalized.terminalPersonId, normalized.cardNo), normalized);
    }
    assert users[..|users|] == users;
    for i := 0 to |cards|
      invariant merged == Merged(stringify, deviceId, users, cards[..i])
    {
      assert cards[..i + 1][..i] == cards[..i];
      merged := AddCard(stringify, deviceId, merged, cards[i]);
    }
    assert cards[..|cards|] == cards;
    MergedIsOuterJoin(stringify, deviceId, users, cards);
    out := merged.Values();
  }

  // ---------------------------------------------------------------- the outer join

  function UserKeys(deviceId: string, users: seq<Fields>): seq<string> {
    seq(|users|, i requires 0 <= i < |users| => UserKey(deviceId, users[i]))
  }

  function CardKeys(deviceId: string, cards: seq<Fields>): seq<string> {
    seq(|cards|, i requires 0 <= i < |cards| => CardKey(deviceId, cards[i]))
  }

  function LastUser(deviceId: string, users: seq<Fields>, key: string): Option<Fields> {
    if users == [] then None
    else
      var last := users[|users| - 1];
      if UserKey(deviceId, last) == key then Some(last) else LastUser(deviceId, users[..|users| - 1], key)
  }

  function CardsFor(deviceId: string, cards: seq<Fields>, key: string): seq<Fields> {
    if cards == [] then []
    else
      var last := cards[|cards| - 1];
      CardsFor(deviceId, cards[..|cards| - 1], key) + if CardKey(deviceId, last) == key then [last] else []
  }

  function LastValue(cards: seq<Fields>, name: string): Option<string> {
    if cards == [] then None
    else Or(ReadOptionalString(Field(cards[|cards| - 1], name)), LastValue(cards[..|cards| - 1], name))
  }

  function FirstValue(cards: seq<Fields>, name: string): Option<string> {
    if cards == [] then None
    else Or(FirstValue(cards[..|cards| - 1], name), ReadOptionalString(Field(cards[|cards| - 1], name)))
  }

  function FromUser(user: Option<Fields>, name: string): Option<string> {
    if user.Some? then ReadOptionalString(Field(user.value, name)) else None
  }

  /** One row of the join: the last user record and all card records of a key. */
  function Joined(stringify: Fields -> string, deviceId: string, user: Option<Fields>, cards: seq<Fields>): ExportUser
    requires user.Some? || cards != []
  {
    ExportUser(
      deviceId,
      if user.Some? then FromUser(user, "UserID") else ReadOptionalString(Field(cards[0], "UserID")),
      Or(Or(FromUser(user, "UserName"), FromUser(user, "Name")), FirstValue(cards, "CardName")),
      FromUser(user, "UserType"), FromUser(user, "UserStatus"), FromUser(user, "Authority"),
      FromUser(user, "CitizenIDNo"), FromUser(user, "ValidFrom"), FromUser(user, "ValidTo"),
      LastValue(cards, "CardNo"), LastValue(cards, "CardName"),
      (if user.Some? then [AccessUser] else []) + if cards != [] then [AccessCard] else [],
      if user.Some? then Some(stringify(user.value)) else None,
      if cards != [] then Some(stringify(cards[|cards| - 1])) else None)
  }

  /** What the join holds for a key. */
  function RowFor(stringify: Fields -> string, deviceId: string, users: seq<Fields>, cards: seq<Fields>,
                  key: string): Option<ExportUser>
  {
    var user, cs := LastUser(deviceId, users, key), CardsFor(deviceId, cards, key);
    if user.None? && cs == [] then None else Some(Joined(stringify, deviceId, user, cs))
  }

  ghost predicate IsJoin(stringify: Fields -> string, deviceId: string, users: seq<Fields>, cards: seq<Fields>,
                         m: OMap<string, ExportUser>)
  {
    && m.Valid()
    && m.order == FirstSeen(UserKeys(deviceId, users) + CardKeys(deviceId, cards))
    && forall k :: m.Get(k) == RowFor(stringify, deviceId, users, cards, k)
  }

  lemma ValuesWithCard(cards: seq<Fields>, card: Fields, name: string)
    ensures LastValue(cards + [card], name) == Or(ReadOptionalString(Field(card, name)), LastValue(cards, name))
    ensures FirstValue(cards + [card], name) == Or(FirstValue(cards, name), ReadOptionalString(Field(card, name)))
  {
    assert (cards + [card])[..|cards|] == cards;
  }

  lemma SourcesWithCard(user: Option<Fields>, cards: seq<Fields>)
    ensures var sources := (if user.Some? then [AccessUser] else []) + if cards != [] then [AccessCard] else [];
            (if AccessCard in sources then sources else sources + [AccessCard]) ==
            (if user.Some? then [AccessUser] else []) + [AccessCard]
  {
    if cards != [] {
      assert ((if user.Some? then [AccessUser] else []) + [AccessCard])[if user.Some? then 1 else 0] == AccessCard;
    }
  }

  /** Adding a card to a joined row gives the row joined with one more card. */
  lemma CardJoins(stringify: Fields -> string, deviceId: string, user: Option<Fields>, cards: seq<Fields>, card: Fields)
    requires user.Some? || cards != []
    ensures MergeCardIntoExportUser(stringify, Joined(stringify, deviceId, user, cards), card) ==
            Joined(stringify, deviceId, user, cards + [card])
  {
    ValuesWithCard(cards, card, "CardNo");
    ValuesWithCard(cards, card, "CardName");
    SourcesWithCard(user, cards);
  }

  lemma FirstCardJoins(stringify: Fields -> string, deviceId: string, card: Fields)
    ensures ToCardOnlyExportUser(stringify, deviceId, card) == Joined(stringify, deviceId, None, [card])
  {
    assert [card][..0] == [];
    assert LastValue([card], "CardNo") == ReadOptionalString(Field(card, "CardNo"));
    assert LastValue([card], "CardName") == FirstValue([card], "CardName") ==
        ReadOptionalString(Field(card, "CardName"));
    assert [] + [AccessCard] == [AccessCard];
  }

  lemma UserJoins(stringify: Fields -> string, deviceId: string, user: Fields)
    ensures ToBaseExportUser(stringify, deviceId, user) == Joined(stringify, deviceId, Some(user), [])
  {
    assert [AccessUser] + [] == [AccessUser];
  }

  lemma RowAfterUser(stringify: Fields -> string, deviceId: string, users: seq<Fields>, user: Fields,
                     m: OMap<string, ExportUser>, k: string)
    requires m.Get(k) == RowFor(stringify, deviceId, users, [], k)
    ensures m.Set(UserKey(deviceId, user), ToBaseExportUser(stringify, deviceId, user)).Get(k) ==
            RowFor(stringify, deviceId, users + [user], [], k)
  {
    assert (users + [user])[..|users|] == users;
    if k == UserKey(deviceId, user) {
      UserJoins(stringify, deviceId, user);
    }
  }

  lemma RowAfterCard(stringify: Fields -> string, deviceId: string, users: seq<Fields>, cards: seq<Fields>,
                     card: Fields, m: OMap<string, ExportUser>, k: string)
    requires m.Get(k) == RowFor(stringify, deviceId, users, cards, k)
    ensures AddCard(stringify, deviceId, m, card).Get(k) == RowFor(stringify, deviceId, users, cards + [card], k)
  {
    var user, cs := LastUser(deviceId, users, k), CardsFor(deviceId, cards, k);
    assert (cards + [card])[..|cards|] == cards;
    if k != CardKey(deviceId, card) {
      assert cs + [] == cs;
    } else if user.Some? || cs != [] {
      CardJoins(stringify, deviceId, user, cs, card);
    } else {
      FirstCardJoins(stringify, deviceId, card);
      assert cs + [card] == [card];
    }
  }

  lemma {:induction false} UsersAreJoin(stringify: Fields -> string, deviceId: string, users: seq<Fields>)
    ensures IsJoin(stringify, deviceId, users, [], WithUsers(stringify, deviceId, users))
  {
    if users == [] {
      assert UserKeys(deviceId, []) + CardKeys(deviceId, []) == [];
    } else {
      var init, last := users[..|users| - 1], users[|users| - 1];
      UsersAreJoin(stringify, deviceId, init);
      assert users == init + [last];
      OneUserMore(stringify, deviceId, init, last, WithUsers(stringify, deviceId, init));
    }
  }

  lemma OneUserMore(stringify: Fields -> string, deviceId: string, users: seq<Fields>, user: Fields,
                    m: OMap<string, ExportUser>)
    requires IsJoin(stringify, deviceId, users, [], m)
    ensures IsJoin(stringify, deviceId, users + [user], [],
                   m.Set(UserKey(deviceId, user), ToBaseExportUser(stringify, deviceId, user)))
  {
    var keys, key := UserKeys(deviceId, users) + CardKeys(deviceId, []), UserKey(deviceId, user);
    assert UserKeys(deviceId, users + [user]) + CardKeys(deviceId, []) == keys + [key];
    OneKeyMore(m, keys, key, ToBaseExportUser(stringify, deviceId, user));
    forall k ensures m.Set(key, ToBaseExportUser(stringify, deviceId, user)).Get(k) ==
                     RowFor(stringify, deviceId, users + [user], [], k)
    {
      RowAfterUser(stringify, deviceId, users, user, m, k);
    }
  }

  /** Main result: the merge is an outer join on the keys as computed, users first in first-seen order, then
      the keys only cards have. */
  lemma {:induction false} MergedIsOuterJoin(stringify: Fields -> string, deviceId: string, users: seq<Fields>,
                                             cards: seq<Fields>)
    ensures IsJoin(stringify, deviceId, users, cards, Merged(stringify, deviceId, users, cards))
  {
    if cards == [] {
      UsersAreJoin(stringify, deviceId, users);
    } else {
      var init, last := cards[..|cards| - 1], cards[|cards| - 1];
      MergedIsOuterJoin(stringify, deviceId, users, init);
      assert cards == init + [last];
      OneCardMore(stringify, deviceId, users, init, last, Merged(stringify, deviceId, users, init));
    }
  }

  lemma OneCardMore(stringify: Fields -> string, deviceId: string, users: seq<Fields>, cards: seq<Fields>, card: Fields,
                    m: OMap<string, ExportUser>)
    requires IsJoin(stringify, deviceId, users, cards, m)
    ensures IsJoin(stringify, deviceId, users, cards + [card], AddCard(stringify, deviceId, m, card))
  {
    var key, keys := CardKey(deviceId, card), UserKeys(deviceId, users) + CardKeys(deviceId, cards);
    assert UserKeys(deviceId, users) + CardKeys(deviceId, cards + [card]) == keys + [key];
    OneKeyMore(m, keys, key, match m.Get(key)
                             case Some(user) => MergeCardIntoExportUser(stringify, user, card)
                             case None => ToCardOnlyExportUser(stringify, deviceId, card));
    forall k
      ensures AddCard(stringify, deviceId, m, card).Get(k) == RowFor(stringify, deviceId, users, cards + [card], k)
    {
      RowAfterCard(stringify, deviceId, users, cards, card, m, k);
    }
  }

  /** What tells a card apart on one device: its id, where null reads as a word, or without an id its number. */
  ghost function CardText(card: Fields): string {
    if Field(card, "UserID") != Undefined then StringOf(Field(card, "UserID"))
    else "card:" + if Field(card, "CardNo") != Undefined then StringOf(Field(card, "CardNo")) else ""
  }

  /** What tells a user apart: the id, or the placeholder of a card without a number. */
  ghost function UserText(user: Fields): string {
    match ReadOptionalString(Field(user, "UserID")) case Some(id) => id case None => "card:"
  }

  lemma KeysCarryTexts(deviceId: string, user: Fields, card: Fields)
    ensures UserKey(deviceId, user) == deviceId + ":" + UserText(user)
    ensures CardKey(deviceId, card) == deviceId + ":" + CardText(card)
  {
    assert "card:" + "" == "card:";
  }

  /** A card joins a user exactly when their texts agree, and two cards join exactly when theirs do. */
  lemma CardJoinsUser(deviceId: string, user: Fields, card: Fields, other: Fields)
    ensures CardKey(deviceId, card) == UserKey(deviceId, user) <==> CardText(card) == UserText(user)
    ensures CardKey(deviceId, card) == CardKey(deviceId, other) <==> CardText(card) == CardText(other)
  {
    KeysCarryTexts(deviceId, user, card);
    KeysCarryTexts(deviceId, user, other);
    SameRest(deviceId + ":", CardText(card), UserText(user));
    SameRest(deviceId + ":", CardText(card), CardText(other));
  }

  /** Cards without an id are exported together exactly when their numbers read the same. */
  lemma NumbersTellCardsApart(deviceId: string, card: Fields, other: Fields)
    requires Field(card, "UserID") == Undefined && Field(other, "UserID") == Undefined
    requires Field(card, "CardNo") != Undefined && Field(other, "CardNo") != Undefined
    ensures CardKey(deviceId, card) == CardKey(deviceId, other) <==>
            StringOf(Field(card, "CardNo")) == StringOf(Field(other, "CardNo"))
  {
    CardJoinsUser(deviceId, map[], card, other);
    SameRest("card:", StringOf(Field(card, "CardNo")), StringOf(Field(other, "CardNo")));
  }

  /** So a user and a card that both carry a null id are exported separately. */
  lemma NullIdsStayApart(deviceId: string, user: Fields, card: Fields)
    requires Field(user, "UserID") == Null && Field(card, "UserID") == Null
    ensures CardKey(deviceId, card) != UserKey(deviceId, user)
  {
    CardJoinsUser(deviceId, user, card, card);
    assert |"null"| == 4 && |"card:"| == 5;
  }

  /** How values read: as optional text, objects and missing values are nothing; written out they are words. */
  lemma ValueTexts(v: Json)
    ensures v.Str? || v.Num? ==> ReadOptionalString(v) == Some(v.text) && StringOf(v) == v.text
    ensures v.Bool? ==> ReadOptionalString(v) == Some(StringOf(v)) && StringOf(v) == if v.value then "true" else "false"
    ensures v.Null? || v.Undefined? || v.Other? <==> ReadOptionalString(v) == None
    ensures StringOf(Null) == "null" && StringOf(Undefined) == "undefined" && (v.Other? ==> StringOf(v) == v.text)
  {}

  /** A user and a card with the same id on the device are exported as one person, with the user's name and the card's
      number. */
  lemma UserMeetsCard(stringify: Fields -> string, deviceId: string, user: Fields, card: Fields, id: string,
                      name: string, no: string)
    requires "UserID" in user && user["UserID"] == Str(id) && "UserName" in user && user["UserName"] == Str(name)
    requires "UserID" in card && card["UserID"] == Str(id) && "CardNo" in card && card["CardNo"] == Str(no)
    ensures var m := Merged(stringify, deviceId, [user], [card]);
            && m.order == [deviceId + ":" + id] && m.Get(deviceId + ":" + id).Some?
            && var row := m.Get(deviceId + ":" + id).value;
               && row.deviceId == deviceId && row.terminalPersonId == Some(id) && row.displayName == Some(name)
               && row.cardNo == Some(no) && row.sourceSummary == [AccessUser, AccessCard]
               && row.rawUserPayload == Some(stringify(user)) && row.rawCardPayload == Some(stringify(card))
  {
    assert [user][..0] == [] && [card][..0] == [];
    var base := ToBaseExportUser(stringify, deviceId, user);
    assert WithUsers(stringify, deviceId, [user]) == Empty().Set(deviceId + ":" + id, base);
    assert Merged(stringify, deviceId, [user], []) == WithUsers(stringify, deviceId, [user]);
    assert base.sourceSummary + [AccessCard] == [AccessUser, AccessCard];
  }
}
