/** The Authorization header: base64 (section 4 of RFC 4648) and user and password in it (section 2
    of RFC 7617). */
module BasicAuth {
  import opened Text
  import opened Errors

  type Byte = b: int | 0 <= b < 256

  // ----- Base64 -----

  function Letter(v: int): char
    requires 0 <= v < 64
  {
    if v < 26 then 'A' + v as char
    else if v < 52 then 'a' + (v - 26) as char
    else if v < 62 then '0' + (v - 52) as char
    else if v == 62 then '+' else '/'
  }

  function ValueOf(c: char): (v: Option<int>)
    ensures v.Some? ==> 0 <= v.value < 64
  {
    if 'A' <= c <= 'Z' then Some((c - 'A') as int)
    else if 'a' <= c <= 'z' then Some((c - 'a') as int + 26)
    else if '0' <= c <= '9' then Some((c - '0') as int + 52)
    else if c == '+' then Some(62)
    else if c == '/' then Some(63)
    else None
  }

  lemma ValueOfLetter(v: int)
    requires 0 <= v < 64
    ensures ValueOf(Letter(v)) == Some(v) && Letter(v) !in " =\r\n"
  {
  }

  function Encode(data: seq<Byte>): string {
    if data == [] then ""
    else if |data| == 1 then [Letter(data[0] / 4), Letter(data[0] % 4 * 16), '=', '=']
    else if |data| == 2 then
      [Letter(data[0] / 4), Letter(data[0] % 4 * 16 + data[1] / 16), Letter(data[1] % 16 * 4), '=']
    else
      [Letter(data[0] / 4), Letter(data[0] % 4 * 16 + data[1] / 16), Letter(data[1] % 16 * 4 + data[2] / 64), Letter(data[2] % 64)]
      + Encode(data[3..])
  }

  function WithoutLineBreaks(text: string): string {
    if text == "" then ""
    else (if text[0] == '\r' || text[0] == '\n' then "" else [text[0]]) + WithoutLineBreaks(text[1..])
  }

  /** Decodes groups of four letters; only the last group may be padded. Bits of the last letter
      that belong to no byte are ignored. */
  function DecodeGroups(text: string): Option<seq<Byte>> {
    if text == "" then Some([])
    else if |text| < 4 then None
    else
      match (ValueOf(text[0]), ValueOf(text[1]), ValueOf(text[2]), ValueOf(text[3]))
      case (Some(a), Some(b), Some(c), Some(d)) =>
        (match DecodeGroups(text[4..])
         case None => None
         case Some(rest) => Some([FirstByte(a, b), SecondByte(b, c), ThirdByte(c, d)] + rest))
      case (Some(a), Some(b), Some(c), None) =>
        if text[3] == '=' && |text| == 4 then Some([FirstByte(a, b), SecondByte(b, c)]) else None
      case (Some(a), Some(b), None, None) =>
        if text[2] == '=' && text[3] == '=' && |text| == 4 then Some([FirstByte(a, b)]) else None
      case _ => None
  }

  function FirstByte(a: int, b: int): Byte
    requires 0 <= a < 64 && 0 <= b < 64
  {
    a * 4 + b / 16
  }

  function SecondByte(b: int, c: int): Byte
    requires 0 <= b < 64 && 0 <= c < 64
  {
    b % 16 * 16 + c / 4
  }

  function ThirdByte(c: int, d: int): Byte
    requires 0 <= c < 64 && 0 <= d < 64
  {
    c % 4 * 64 + d
  }

  function Decode(text: string): Option<seq<Byte>> {
    DecodeGroups(WithoutLineBreaks(text))
  }

  lemma LettersDecode()
    ensures forall v | 0 <= v < 64 :: ValueOf(Letter(v)) == Some(v)
    ensures ValueOf('=').None?
  {
    forall v | 0 <= v < 64 ensures ValueOf(Letter(v)) == Some(v) {
      ValueOfLetter(v);
    }
  }

  lemma {:induction false} DecodeUndoesEncode(data: seq<Byte>)
    ensures DecodeGroups(Encode(data)) == Some(data)
  {
    LettersDecode();
    hide Letter, ValueOf, FirstByte, SecondByte, ThirdByte;
    if |data| == 1 {
      OneByteUndone(data[0]);
      assert data == [data[0]];
    } else if |data| == 2 {
      TwoBytesUndone(data[0], data[1]);
      assert data == [data[0], data[1]];
    } else if |data| > 2 {
      GroupUndone(data[0], data[1], data[2]);
      DecodeUndoesEncode(data[3..]);
      assert Encode(data)[4..] == Encode(data[3..]);
      assert data == [data[0], data[1], data[2]] + data[3..];
    }
  }

  lemma OneByteUndone(x: Byte)
    ensures FirstByte(x / 4, x % 4 * 16) == x
  {
  }

  lemma TwoBytesUndone(x: Byte, y: Byte)
    ensures FirstByte(x / 4, x % 4 * 16 + y / 16) == x
    ensures SecondByte(x % 4 * 16 + y / 16, y % 16 * 4) == y
  {
  }

  lemma GroupUndone(x: Byte, y: Byte, z: Byte)
    ensures FirstByte(x / 4, x % 4 * 16 + y / 16) == x
    ensures SecondByte(x % 4 * 16 + y / 16, y % 16 * 4 + z / 64) == y
    ensures ThirdByte(y % 16 * 4 + z / 64, z % 64) == z
  {
  }

  predicate InAlphabet(c: char) {
    'A' <= c <= 'Z' || 'a' <= c <= 'z' || '0' <= c <= '9' || c == '+' || c == '/'
  }

  /** Whole groups of four: n letters and behind them at most two padding characters. */
  predicate LettersAndPadding(text: string, n: nat) {
    && |text| % 4 == 0 && n <= |text| <= n + 2
    && (forall k | 0 <= k < n :: InAlphabet(text[k]))
    && (forall k | n <= k < |text| :: text[k] == '=')
  }

  lemma LettersFit()
    ensures forall c: char :: ValueOf(c).Some? <==> InAlphabet(c)
    ensures forall c: char :: ValueOf(c).Some? ==> Letter(ValueOf(c).value) == c
    ensures !InAlphabet('=')
  {
  }

  lemma GroupRedone(a: int, b: int, c: int, d: int)
    requires 0 <= a < 64 && 0 <= b < 64 && 0 <= c < 64 && 0 <= d < 64
    ensures FirstByte(a, b) / 4 == a && FirstByte(a, b) % 4 * 16 + SecondByte(b, c) / 16 == b
    ensures SecondByte(b, c) % 16 * 4 + ThirdByte(c, d) / 64 == c && ThirdByte(c, d) % 64 == d
  {
  }

  /** The text and the encoding of what it decodes to agree up to the last letter before padding,
      of which decoding ignores some bits. */
  predicate Reencoded(text: string, n: nat, data: seq<Byte>) {
    |Encode(data)| == |text| && forall k | 0 <= k < |text| && (n == |text| || k != n - 1) :: Encode(data)[k] == text[k]
  }

  /** Such a text can be decoded, and no other. */
  lemma {:induction false} WellFormedDecodes(text: string, n: nat)
    requires LettersAndPadding(text, n)
    ensures DecodeGroups(text).Some? && Reencoded(text, n, DecodeGroups(text).value)
    decreases |text|
  {
    LettersFit();
    hide ValueOf, InAlphabet, Letter, FirstByte, SecondByte, ThirdByte;
    if text != "" {
      var a, b := ValueOf(text[0]).value, ValueOf(text[1]).value;
      if n == 2 {
        GroupRedone(a, b, 0, 0);
      } else if n == 3 {
        GroupRedone(a, b, ValueOf(text[2]).value, 0);
      } else {
        var c, d, rest := ValueOf(text[2]).value, ValueOf(text[3]).value, text[4..];
        GroupRedone(a, b, c, d);
        WellFormedDecodes(rest, n - 4);
        var more := DecodeGroups(rest).value;
        var data := [FirstByte(a, b), SecondByte(b, c), ThirdByte(c, d)] + more;
        assert data[3..] == more;
        assert text == [text[0], text[1], text[2], text[3]] + rest;
        assert Encode(data) == [text[0], text[1], text[2], text[3]] + Encode(more);
      }
    }
  }

  lemma {:induction false} DecodesOnlyWellFormed(text: string) returns (n: nat)
    requires DecodeGroups(text).Some?
    ensures LettersAndPadding(text, n)
    decreases |text|
  {
    LettersFit();
    hide ValueOf, InAlphabet, Letter, FirstByte, SecondByte, ThirdByte;
    if text == "" {
      n := 0;
    } else if ValueOf(text[3]).Some? {
      var m := DecodesOnlyWellFormed(text[4..]);
      n := m + 4;
      assert forall k | 4 <= k < |text| :: text[k] == text[4..][k - 4];
    } else {
      n := if ValueOf(text[2]).Some? then 3 else 2;
    }
  }

  lemma EncodedLetters(data: seq<Byte>)
    ensures ' ' !in Encode(data) && WithoutLineBreaks(Encode(data)) == Encode(data)
  {
    EncodedIsPlain(data);
    NoLineBreaks(Encode(data));
  }

  predicate PlainLetter(c: char) {
    c != ' ' && c != '\r' && c != '\n'
  }

  lemma {:induction false} EncodedIsPlain(data: seq<Byte>)
    ensures forall i | 0 <= i < |Encode(data)| :: PlainLetter(Encode(data)[i])
  {
    if data != [] {
      forall v | 0 <= v < 64 ensures PlainLetter(Letter(v)) {
        ValueOfLetter(v);
      }
      if |data| > 2 {
        EncodedIsPlain(data[3..]);
      }
    }
  }

  lemma {:induction false} NoLineBreaks(text: string)
    requires forall i | 0 <= i < |text| :: PlainLetter(text[i])
    ensures WithoutLineBreaks(text) == text
  {
    if text != "" {
      assert PlainLetter(text[0]);
      forall i | 0 <= i < |text[1..]| ensures PlainLetter(text[1..][i]) {
        assert PlainLetter(text[i + 1]);
      }
      NoLineBreaks(text[1..]);
      assert text == [text[0]] + text[1..];
    }
  }

  // ----- The header -----

  const COLON: Byte := 58

  datatype Credentials = UserPassword(user: seq<Byte>, password: seq<Byte>) | AccessToken(token: string)

  function Unauthorized(message: string): Error {
    NewApiError(UNAUTHORIZED, message)
  }

  function ExtractUserPassword(credentials: string): Result<Credentials> {
    match Decode(credentials)
    case None => Err(Unauthorized("invalid basic auth header " + Quoted(credentials)))
    case Some(data) =>
      var colon := IndexOf(data, COLON);
      if colon == |data| then Err(Unauthorized("colon missing in basic auth header"))
      else Ok(UserPassword(data[..colon], data[colon + 1..]))
  }

  /** What the program takes from the header; an empty header stands for a missing one. */
  function Authenticate(header: string): Result<Credentials> {
    var parts := Split(header, ' ');
    if header == "" then Err(Unauthorized("missing Authorization header"))
    else if |parts| < 2 then Err(Unauthorized("invalid Authorization header " + Quoted(header)))
    else if parts[0] == "Basic" then ExtractUserPassword(parts[1])
    else if parts[0] == "Bearer" then Ok(AccessToken(parts[1]))
    else Err(Unauthorized("invalid Authorization scheme " + Quoted(parts[0])))
  }

  function BasicHeader(user: seq<Byte>, password: seq<Byte>): string {
    "Basic " + Encode(user + [COLON] + password)
  }

  function BearerHeader(token: string): string {
    "Bearer " + token
  }

  lemma SplitFirst(head: string, tail: string)
    requires ' ' !in head
    ensures Split(head + " " + tail, ' ') == [head] + Split(tail, ' ')
  {
    var parts := [head] + Split(tail, ' ');
    assert parts[1..] == Split(tail, ' ');
    SplitJoined(parts, ' ');
  }

  lemma SplitWhole(s: string)
    requires ' ' !in s
    ensures Split(s, ' ') == [s]
  {
    SplitJoined([s], ' ');
  }

  lemma FirstColon(user: seq<Byte>, password: seq<Byte>)
    ensures var i := IndexOf(user + [COLON] + password, COLON);
            i <= |user| && (i == |user| <==> COLON !in user)
  {
    var s := user + [COLON] + password;
    var i := IndexOf(s, COLON);
    assert s[|user|] == COLON;
    assert forall k | 0 <= k < |user| :: s[k] == user[k] && user[k] in user;
  }

  /** Parsing the printed header yields the same user and password, for every password and exactly
      for the users without a colon; it never fails. */
  lemma BasicRoundTrip(user: seq<Byte>, password: seq<Byte>)
    ensures Authenticate(BasicHeader(user, password)).Ok?
    ensures Authenticate(BasicHeader(user, password)) == Ok(UserPassword(user, password)) <==> COLON !in user
  {
    hide Encode, DecodeGroups, WithoutLineBreaks;
    var data := user + [COLON] + password;
    EncodedLetters(data);
    DecodeUndoesEncode(data);
    assert BasicHeader(user, password) == "Basic" + " " + Encode(data);
    SplitFirst("Basic", Encode(data));
    SplitWhole(Encode(data));
    FirstColon(user, password);
    var i := IndexOf(data, COLON);
    if i == |user| {
      assert data[..i] == user && data[i + 1..] == password;
    } else {
      assert |data[..i]| < |user|;
    }
  }

  /** A token comes back unchanged exactly if it has no space in it. */
  lemma BearerRoundTrip(token: string)
    ensures Authenticate(BearerHeader(token)) == Ok(AccessToken(token)) <==> ' ' !in token
  {
    assert BearerHeader(token) == "Bearer" + " " + token;
    SplitFirst("Bearer", token);
    var parts := Split(token, ' ');
    if ' ' !in token {
      SplitWhole(token);
    } else {
      assert parts[0] in parts;
    }
  }

  /** Which headers are accepted, and with what: the scheme is everything before the first space and
      the credentials reach up to the next one. A token is taken as it is; behind Basic there must
      be a text that can be decoded and has a colon in it, of which the first one ends the user.
      Every other scheme is refused. */
  lemma HeaderDecides(scheme: string, credentials: string, more: string)
    requires ' ' !in scheme && ' ' !in credentials && (more == "" || more[0] == ' ')
    ensures var r := Authenticate(scheme + " " + credentials + more);
            if scheme == "Bearer" then r == Ok(AccessToken(credentials))
            else if scheme == "Basic" then
              && (r.Ok? <==> Decode(credentials).Some? && COLON in Decode(credentials).value)
              && (r.Ok? ==> r.value.UserPassword? && COLON !in r.value.user
                            && r.value.user + [COLON] + r.value.password == Decode(credentials).value)
            else r.Err?
  {
    hide Decode, Split;
    var header, tail := scheme + " " + credentials + more, credentials + more;
    assert header == scheme + " " + tail;
    SplitFirst(scheme, tail);
    if more == "" {
      assert tail == credentials;
      SplitWhole(credentials);
    } else {
      assert tail == credentials + " " + more[1..];
      SplitFirst(credentials, more[1..]);
    }
  }

  /** A header without a space is refused, and so is a missing one. */
  lemma OneWordRefused(header: string)
    requires ' ' !in header
    ensures Authenticate(header).Err?
  {
    SplitWhole(header);
  }

  /** Whatever the header holds, a refusal has status 401. */
  lemma RefusedIsUnauthorized(header: string)
    ensures Authenticate(header).Err? ==> StatusOf(Authenticate(header).error) == 401
    ensures !Authenticate(header).Panic?
  {
  }
}
