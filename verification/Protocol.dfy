/** Protocol messages: validation, length limits, and their JSON form. */
module Protocol {
  import opened Prelude
  import opened JsonText
  import T = Timestamp

  const VERSION := 1
  const MAX_BODY_LEN := 65_536
  const MAX_ID_LEN := 256
  const MAX_SENDER_ID_LEN := 512

  datatype Message = Message(
    version: int, id: string, kind: string, senderID: string, recipientID: string,
    groupID: string, stamp: T.Stamp, body: string)

  datatype Error = UnsupportedVersion | MissingRequired | UnknownType | FieldTooLong | InvalidJSON | Unencodable

  // ---- Validation ----

  /** The length of the white-space character s starts with, 0 if there is none. */
  function SpaceLen(s: string): (n: nat)
    requires s != ""
    ensures n <= |s|
  {
    var a := s[0] as int;
    if a == 0x20 || 9 <= a <= 13 then 1
    else if a == 0xC2 && |s| >= 2 && s[1] as int in {0x85, 0xA0} then 2
    else if |s| < 3 then 0
    else
      var b, c := s[1] as int, s[2] as int;
      if (a == 0xE1 && b == 0x9A && c == 0x80)
         || (a == 0xE2 && b == 0x80 && (0x80 <= c <= 0x8A || c in {0xA8, 0xA9, 0xAF}))
         || (a == 0xE2 && b == 0x81 && c == 0x9F)
         || (a == 0xE3 && b == 0x80 && c == 0x80) then 3
      else 0
  }

  /** Nothing is left of s when white space is trimmed. */
  predicate IsBlank(s: string) {
    s == "" || (SpaceLen(s) > 0 && IsBlank(s[SpaceLen(s)..]))
  }

  function Validate(m: Message): Option<Error> {
    if m.version != VERSION then Some(UnsupportedVersion)
    else if IsBlank(m.id) || IsBlank(m.senderID) || IsBlank(m.body) then Some(MissingRequired)
    else if m.kind != "chat" && m.kind != "join" && m.kind != "leave" && m.kind != "system" then Some(UnknownType)
    else if T.IsZero(m.stamp) then Some(MissingRequired)
    else if |m.id| > MAX_ID_LEN || |m.senderID| > MAX_SENDER_ID_LEN || |m.recipientID| > MAX_SENDER_ID_LEN
            || |m.groupID| > MAX_SENDER_ID_LEN || |m.body| > MAX_BODY_LEN then Some(FieldTooLong)
    else None
  }

  /** For ASCII text blank means: nothing but tabs, line breaks, vertical tabs, form feeds and spaces. */
  lemma {:induction false} BlankIff(s: string)
    requires T.IsAscii(s)
    ensures IsBlank(s) <==> forall i :: 0 <= i < |s| ==> s[i] in {' ', '\t', '\n', '\r', 11 as char, 12 as char}
  {
    if s != "" {
      BlankIff(s[1..]);
      assert forall i :: 0 <= i < |s| - 1 ==> s[1..][i] == s[i + 1];
    }
  }

  /** The order in which faults are found, and that nothing else is one. */
  lemma FaultsInOrder(m: Message)
    ensures Validate(m) == Some(UnsupportedVersion) <==> m.version != 1
    ensures m.version == 1 ==>
              (Validate(m) == Some(MissingRequired) <==>
                 IsBlank(m.id) || IsBlank(m.senderID) || IsBlank(m.body)
                 || (m.kind in {"chat", "join", "leave", "system"} && T.IsZero(m.stamp)))
    ensures m.version == 1 && !IsBlank(m.id) && !IsBlank(m.senderID) && !IsBlank(m.body) ==>
              && (Validate(m) == Some(UnknownType) <==> m.kind !in {"chat", "join", "leave", "system"})
              && (Validate(m) == Some(FieldTooLong) <==>
                    && m.kind in {"chat", "join", "leave", "system"} && !T.IsZero(m.stamp)
                    && (|m.id| > 256 || |m.senderID| > 512 || |m.recipientID| > 512 || |m.groupID| > 512 || |m.body| > 65_536))
  {}

  // ---- Encoding ----

  const KEY_ID := "{\"version\":1,\"id\":\""
  const KEY_TYPE := ",\"type\":\""
  const KEY_SENDER := ",\"sender_id\":\""
  const KEY_RECIPIENT := ",\"recipient_id\":\""
  const KEY_GROUP := ",\"group_id\":\""
  const KEY_STAMP := ",\"timestamp\":\""
  const KEY_BODY := ",\"body\":\""

  function Field(key: string, value: string, rest: string): string {
    key + (Escape(value) + ("\"" + rest))
  }

  /** omitempty. */
  function OptionalField(key: string, value: string, rest: string): string {
    if value == "" then rest else Field(key, value, rest)
  }

  /** The JSON text of a message of version 1; none if its time has no text. */
  function Encode(m: Message): Option<string>
    requires m.version == VERSION
  {
    var text :- T.Encode(m.stamp);
    Some(EncodeFields(m, text))
  }

  function EncodeFields(m: Message, text: string): string {
    var ending := Field(KEY_STAMP, text, Field(KEY_BODY, m.body, "}"));
    Field(KEY_ID, m.id, Field(KEY_TYPE, m.kind, Field(KEY_SENDER, m.senderID,
      OptionalField(KEY_RECIPIENT, m.recipientID, OptionalField(KEY_GROUP, m.groupID, ending)))))
  }

  function Marshal(m: Message): Result<string, Error> {
    var invalid := Validate(m);
    if invalid.Some? then Err(invalid.value)
    else match Encode(m)
      case None => Err(Unencodable)
      case Some(text) => Ok(text)
  }

  // ---- Decoding, of texts in the encoder's form ----

  function ReadLiteral(s: string, literal: string): Option<string> {
    if literal <= s then Some(s[|literal|..]) else None
  }

  function ReadField(s: string, key: string): Option<(string, string)> {
    var t :- ReadLiteral(s, key);
    ReadString(t)
  }

  function ReadOptional(s: string, key: string): Option<(string, string)> {
    if ReadLiteral(s, key).None? then Some(("", s)) else ReadField(s, key)
  }

  function Decode(s: string): Option<Message> {
    var id :- ReadField(s, KEY_ID);
    var kind :- ReadField(id.1, KEY_TYPE);
    var sender :- ReadField(kind.1, KEY_SENDER);
    var recipient :- ReadOptional(sender.1, KEY_RECIPIENT);
    var group :- ReadOptional(recipient.1, KEY_GROUP);
    var stamp :- ReadField(group.1, KEY_STAMP);
    var body :- ReadField(stamp.1, KEY_BODY);
    var time :- T.Parse(stamp.0);
    if body.1 == "}" && T.IsReading(time)
    then Some(Message(VERSION, id.0, kind.0, sender.0, recipient.0, group.0, time, body.0))
    else None
  }

  function Unmarshal(s: string): Result<Message, Error> {
    match Decode(s)
    case None => Err(InvalidJSON)
    case Some(m) =>
      var invalid := Validate(m);
      if invalid.Some? then Err(invalid.value) else Ok(m)
  }

  /** What the sender can check beforehand. */
  predicate CanSend(m: Message) {
    Validate(m).None? && T.HasText(m.stamp)
  }

  /** A key and its value as they are written, and what follows them. */
  function Pair(key: string, value: string, rest: string): string {
    key + (value + ("\"" + rest))
  }

  /** The text of a message whose strings need no escape: every key, in this order, with its value, and
      the two optional ones left out if they are empty. */
  lemma TextInFull(m: Message)
    requires m.version == VERSION && T.HasText(m.stamp)
    requires IsPlain(m.id) && IsPlain(m.kind) && IsPlain(m.senderID) && IsPlain(m.recipientID)
    requires IsPlain(m.groupID) && IsPlain(m.body)
    ensures T.Encode(m.stamp).Some?
    ensures var time := Pair(",\"timestamp\":\"", T.Encode(m.stamp).value, Pair(",\"body\":\"", m.body, "}"));
            var group := if m.groupID == "" then time else Pair(",\"group_id\":\"", m.groupID, time);
            var recipient := if m.recipientID == "" then group else Pair(",\"recipient_id\":\"", m.recipientID, group);
            Encode(m) == Some(Pair("{\"version\":1,\"id\":\"", m.id,
                                Pair(",\"type\":\"", m.kind, Pair(",\"sender_id\":\"", m.senderID, recipient))))
  {
    T.EncodesIff(m.stamp);
    T.EncodedIsPlain(m.stamp);
    FieldsInFull(m, T.Encode(m.stamp).value);
  }

  lemma PlainField(key: string, value: string, rest: string)
    requires IsPlain(value)
    ensures Field(key, value, rest) == Pair(key, value, rest)
  {
    PlainIsUnescaped(value);
  }

  lemma FieldsInFull(m: Message, text: string)
    requires IsPlain(m.id) && IsPlain(m.kind) && IsPlain(m.senderID) && IsPlain(text) && IsPlain(m.body)
    requires IsPlain(m.recipientID) && IsPlain(m.groupID)
    ensures var time := Pair(",\"timestamp\":\"", text, Pair(",\"body\":\"", m.body, "}"));
            var group := if m.groupID == "" then time else Pair(",\"group_id\":\"", m.groupID, time);
            var recipient := if m.recipientID == "" then group else Pair(",\"recipient_id\":\"", m.recipientID, group);
            EncodeFields(m, text) == Pair("{\"version\":1,\"id\":\"", m.id,
                                       Pair(",\"type\":\"", m.kind, Pair(",\"sender_id\":\"", m.senderID, recipient)))
  {
    var atBody := Field(KEY_BODY, m.body, "}");
    var atStamp := Field(KEY_STAMP, text, atBody);
    var atGroup := OptionalField(KEY_GROUP, m.groupID, atStamp);
    var atRecipient := OptionalField(KEY_RECIPIENT, m.recipientID, atGroup);
    var atSender := Field(KEY_SENDER, m.senderID, atRecipient);
    PlainField(KEY_BODY, m.body, "}");
    PlainField(KEY_STAMP, text, atBody);
    PlainField(KEY_GROUP, m.groupID, atStamp);
    PlainField(KEY_RECIPIENT, m.recipientID, atGroup);
    PlainField(KEY_SENDER, m.senderID, atRecipient);
    PlainField(KEY_TYPE, m.kind, atSender);
    PlainField(KEY_ID, m.id, Field(KEY_TYPE, m.kind, atSender));
  }

  /** Validation lets pass what the encoder refuses: a message marshals exactly if it validates and its
      time has four digits of the year and a zone less than a day off. */
  lemma MarshalsIff(m: Message)
    ensures Marshal(m).Ok? <==> CanSend(m)
    ensures Validate(m).None? && !T.HasText(m.stamp) ==> Marshal(m) == Err(Unencodable)
  {
    T.EncodesIff(m.stamp);
  }

  /** Two validated messages that cannot be sent: one of the year 10000, one in a zone a day off. */
  lemma ValidatedButUnsendable()
    ensures var year := T.Reading(10_000, 1, 1, 0, 0, 0, 0, 0);
            Validate(Plain(year, "hello")).None? && Marshal(Plain(year, "hello")) == Err(Unencodable)
    ensures var zone := T.Reading(2024, 1, 1, 0, 0, 0, 0, 86_400);
            Validate(Plain(zone, "hello")).None? && Marshal(Plain(zone, "hello")) == Err(Unencodable)
  {
    var year, zone := T.Reading(10_000, 1, 1, 0, 0, 0, 0, 0), T.Reading(2024, 1, 1, 0, 0, 0, 0, 86_400);
    T.LaterThanZero(year);
    T.LaterThanZero(zone);
    PlainValidates(year, "hello");
    PlainValidates(zone, "hello");
    MarshalsIff(Plain(year, "hello"));
    MarshalsIff(Plain(zone, "hello"));
  }

  function Plain(stamp: T.Stamp, body: string): Message {
    Message(VERSION, "1", "chat", "p", "", "", stamp, body)
  }

  lemma PlainValidates(stamp: T.Stamp, body: string)
    requires !T.IsZero(stamp) && body != "" && SpaceLen(body) == 0 && |body| <= MAX_BODY_LEN
    ensures Validate(Plain(stamp, body)).None?
  {
    assert SpaceLen("1") == 0 && SpaceLen("p") == 0;
  }

  lemma FieldSize(key: string, value: string, rest: string)
    ensures |key| + |rest| < |Field(key, value, rest)| <= |key| + 6 * |value| + 1 + |rest|
    ensures |rest| <= |OptionalField(key, value, rest)| <= |key| + 6 * |value| + 1 + |rest|
  {
    EscapeGrowsSixfold(value);
  }

  /** Every message that marshals fits in a frame, though every byte may grow sixfold. */
  lemma MarshalledSize(m: Message)
    requires CanSend(m)
    ensures Marshal(m).Ok? && 1 <= |Marshal(m).value| <= 404_400
  {
    MarshalsIff(m);
    T.EncodedIsPlain(m.stamp);
    FieldsSize(m, T.Encode(m.stamp).value);
  }

  lemma FieldsSize(m: Message, text: string)
    requires Validate(m).None? && |text| <= 35
    ensures 1 <= |EncodeFields(m, text)| <= 404_400
  {
    var atBody := Field(KEY_BODY, m.body, "}");
    var atStamp := Field(KEY_STAMP, text, atBody);
    var atGroup := OptionalField(KEY_GROUP, m.groupID, atStamp);
    var atRecipient := OptionalField(KEY_RECIPIENT, m.recipientID, atGroup);
    var atSender := Field(KEY_SENDER, m.senderID, atRecipient);
    var atKind := Field(KEY_TYPE, m.kind, atSender);
    FieldSize(KEY_BODY, m.body, "}");
    FieldSize(KEY_STAMP, text, atBody);
    FieldSize(KEY_GROUP, m.groupID, atStamp);
    FieldSize(KEY_RECIPIENT, m.recipientID, atGroup);
    FieldSize(KEY_SENDER, m.senderID, atRecipient);
    FieldSize(KEY_TYPE, m.kind, atSender);
    FieldSize(KEY_ID, m.id, atKind);
  }

  // ---- Round trip ----

  lemma FieldReadsBack(key: string, value: string, rest: string)
    ensures ReadField(Field(key, value, rest), key) == Some((Clean(value), rest))
  {
    var s := Field(key, value, rest);
    assert s[|key|..] == Escape(value) + ("\"" + rest);
    EscapedReadsBack(value, rest);
  }

  lemma OptionalReadsBack(key: string, value: string, rest: string)
    requires ReadLiteral(rest, key).None?
    ensures ReadOptional(OptionalField(key, value, rest), key) == Some((Clean(value), rest))
  {
    FieldReadsBack(key, value, rest);
  }

  /** Keys that differ in their third character are told apart. */
  lemma OtherKey(key: string, other: string, rest: string)
    requires |key| > 2 && |other| > 2 && key[2] != other[2]
    ensures ReadLiteral(other + rest, key).None?
  {
    assert (other + rest)[2] == other[2];
  }

  lemma {:induction false} AsciiIsClean(t: string)
    requires T.IsAscii(t)
    ensures Clean(t) == t
  {
    if t != "" {
      assert t[..1] + t[1..] == t;
      AsciiIsClean(t[1..]);
    }
  }

  /** What a reader makes of a message: invalid bytes are replaced, the seconds of a zone are lost. */
  function Received(m: Message): Message {
    m.(id := Clean(m.id), kind := Clean(m.kind), senderID := Clean(m.senderID),
       recipientID := Clean(m.recipientID), groupID := Clean(m.groupID), body := Clean(m.body),
       stamp := T.WholeMinutes(m.stamp))
  }

  /** Decoding what was encoded gives what a reader can make of the message. */
  lemma EncodedReadsBack(m: Message)
    requires m.version == VERSION && Encode(m).Some?
    ensures Decode(Encode(m).value) == Some(Received(m))
  {
    var text := T.Encode(m.stamp).value;
    T.EncodedIsPlain(m.stamp);
    T.EncodedReadsBack(m.stamp);
    AsciiIsClean(text);
    FieldsReadBack(m, text);
  }

  lemma FieldsReadBack(m: Message, text: string)
    requires m.version == VERSION && Clean(text) == text && T.Parse(text) == Some(T.WholeMinutes(m.stamp))
    ensures Decode(EncodeFields(m, text)) == Some(Received(m))
  {
    var atBody := Field(KEY_BODY, m.body, "}");
    var atStamp := Field(KEY_STAMP, text, atBody);
    var atGroup := OptionalField(KEY_GROUP, m.groupID, atStamp);
    var atRecipient := OptionalField(KEY_RECIPIENT, m.recipientID, atGroup);
    var atSender := Field(KEY_SENDER, m.senderID, atRecipient);
    var atKind := Field(KEY_TYPE, m.kind, atSender);
    FieldReadsBack(KEY_ID, m.id, atKind);
    FieldReadsBack(KEY_TYPE, m.kind, atSender);
    FieldReadsBack(KEY_SENDER, m.senderID, atRecipient);
    OtherKeys(m, atStamp, text, atBody);
    OptionalReadsBack(KEY_RECIPIENT, m.recipientID, atGroup);
    OptionalReadsBack(KEY_GROUP, m.groupID, atStamp);
    FieldReadsBack(KEY_STAMP, text, atBody);
    FieldReadsBack(KEY_BODY, m.body, "}");
  }

  lemma OtherKeys(m: Message, atStamp: string, text: string, atBody: string)
    requires atStamp == Field(KEY_STAMP, text, atBody)
    ensures ReadLiteral(atStamp, KEY_GROUP).None?
    ensures ReadLiteral(OptionalField(KEY_GROUP, m.groupID, atStamp), KEY_RECIPIENT).None?
  {
    var rest := Escape(text) + ("\"" + atBody);
    assert KEY_GROUP[2] == 'g' && KEY_RECIPIENT[2] == 'r' && KEY_STAMP[2] == 't';
    OtherKey(KEY_GROUP, KEY_STAMP, rest);
    OtherKey(KEY_RECIPIENT, KEY_STAMP, rest);
    OtherKey(KEY_RECIPIENT, KEY_GROUP, Escape(m.groupID) + ("\"" + atStamp));
  }

  predicate AllValidUtf8(m: Message) {
    ValidUtf8(m.id) && ValidUtf8(m.kind) && ValidUtf8(m.senderID) && ValidUtf8(m.recipientID)
    && ValidUtf8(m.groupID) && ValidUtf8(m.body)
  }

  lemma ReceivedUnchangedIff(m: Message)
    ensures Received(m) == m <==> AllValidUtf8(m) && m.stamp.offset % 60 == 0
  {
    CleanIffValid(m.id);
    CleanIffValid(m.kind);
    CleanIffValid(m.senderID);
    CleanIffValid(m.recipientID);
    CleanIffValid(m.groupID);
    CleanIffValid(m.body);
    T.WholeMinutesIff(m.stamp);
  }

  /** A message survives the round trip exactly when all its strings are valid UTF-8 and its zone is
      a whole number of minutes off. */
  lemma RoundTripIff(m: Message)
    requires CanSend(m)
    ensures Marshal(m).Ok?
    ensures Unmarshal(Marshal(m).value) == Ok(m) <==> AllValidUtf8(m) && m.stamp.offset % 60 == 0
  {
    MarshalsIff(m);
    EncodedReadsBack(m);
    ReceivedUnchangedIff(m);
  }

  // ---- Which messages are accepted at the other end ----

  lemma SpaceIsClean(s: string)
    requires s != ""
    ensures SpaceLen(s) > 0 ==> UnitLen(s) == SpaceLen(s) && CleanUnit(s) == s[..SpaceLen(s)]
    ensures forall x: string :: SpaceLen(CleanUnit(s) + x) == SpaceLen(s)
  {}

  /** Replacing invalid bytes makes no field blank and fills none. */
  lemma {:induction false} CleanKeepsBlank(s: string)
    ensures IsBlank(Clean(s)) <==> IsBlank(s)
  {
    if s != "" {
      SpaceIsClean(s);
      var n := SpaceLen(s);
      if n > 0 {
        CleanKeepsBlank(s[n..]);
        assert Clean(s)[n..] == Clean(s[n..]);
      }
    }
  }

  /** Invalid bytes are sent within the limits and may be received beyond them: a message is accepted
      at the other end exactly if it keeps the limits once its invalid bytes have been replaced, and
      its time without the seconds of its zone is not the zero instant. */
  lemma AcceptedIff(m: Message)
    requires CanSend(m)
    ensures Marshal(m).Ok?
    ensures var r := Unmarshal(Marshal(m).value);
            && (r.Ok? <==> WithinLimits(Received(m)) && !T.IsZero(T.WholeMinutes(m.stamp)))
            && (r.Ok? ==> r.value == Received(m))
  {
    MarshalsIff(m);
    EncodedReadsBack(m);
    ReceivedValidatesIff(m);
  }

  predicate WithinLimits(m: Message) {
    |m.id| <= MAX_ID_LEN && |m.senderID| <= MAX_SENDER_ID_LEN && |m.recipientID| <= MAX_SENDER_ID_LEN
    && |m.groupID| <= MAX_SENDER_ID_LEN && |m.body| <= MAX_BODY_LEN
  }

  lemma ReceivedValidatesIff(m: Message)
    requires Validate(m).None?
    ensures Validate(Received(m)).None? <==> WithinLimits(Received(m)) && !T.IsZero(T.WholeMinutes(m.stamp))
  {
    KindIsClean(m);
    CleanKeepsBlank(m.id);
    CleanKeepsBlank(m.senderID);
    CleanKeepsBlank(m.body);
    AlikeValidatesIff(m, Received(m));
  }

  lemma KindIsClean(m: Message)
    requires Validate(m).None?
    ensures Clean(m.kind) == m.kind
  {
    AsciiIsClean(m.kind);
  }

  lemma AlikeValidatesIff(m: Message, r: Message)
    requires Validate(m).None? && r.version == m.version && r.kind == m.kind
    requires !IsBlank(r.id) && !IsBlank(r.senderID) && !IsBlank(r.body)
    ensures Validate(r).None? <==> WithinLimits(r) && !T.IsZero(r.stamp)
  {}

  const INVALID_BYTE: char := 0xFF as char

  lemma {:induction false} InvalidBytesTriple(s: string)
    requires forall i :: 0 <= i < |s| ==> s[i] == INVALID_BYTE
    ensures |Clean(s)| == 3 * |s|
  {
    if s != "" {
      InvalidBytesTriple(s[1..]);
    }
  }

  /** A body of n invalid bytes is sent up to 65,536 of them, and refused at the other end beyond a
      third of that; it never comes back as it was. */
  lemma InvalidBodyIsRefused(stamp: T.Stamp, n: nat)
    requires 0 < n <= MAX_BODY_LEN && 2 <= stamp.year <= 9999 && stamp.offset == 0
    ensures var m := Plain(stamp, seq(n, _ => INVALID_BYTE));
            && Marshal(m).Ok? && Unmarshal(Marshal(m).value) != Ok(m)
            && (Unmarshal(Marshal(m).value).Ok? <==> 3 * n <= MAX_BODY_LEN)
  {
    var body := seq(n, _ => INVALID_BYTE);
    T.LaterThanZero(stamp);
    PlainValidates(stamp, body);
    InvalidBytesTriple(body);
    PlainAcceptedIff(stamp, body);
  }

  lemma PlainAcceptedIff(stamp: T.Stamp, body: string)
    requires CanSend(Plain(stamp, body)) && stamp.offset == 0
    ensures var m := Plain(stamp, body);
            && Marshal(m).Ok?
            && (Unmarshal(Marshal(m).value).Ok? <==> |Clean(body)| <= MAX_BODY_LEN)
            && (Unmarshal(Marshal(m).value) == Ok(m) ==> Clean(body) == body)
  {
    T.WholeMinutesIff(stamp);
    ReceivedPlain(stamp, body);
    AcceptedIff(Plain(stamp, body));
  }

  lemma ReceivedPlain(stamp: T.Stamp, body: string)
    requires stamp.offset == 0
    ensures Received(Plain(stamp, body)) == Plain(stamp, Clean(body))
  {
    PlainFieldsAreClean(Plain(stamp, body));
    T.WholeMinutesIff(stamp);
  }

  lemma PlainFieldsAreClean(m: Message)
    requires T.IsAscii(m.id) && T.IsAscii(m.kind) && T.IsAscii(m.senderID)
    ensures Clean(m.id) == m.id && Clean(m.kind) == m.kind && Clean(m.senderID) == m.senderID
  {
    AsciiIsClean(m.id);
    AsciiIsClean(m.kind);
    AsciiIsClean(m.senderID);
  }
}
