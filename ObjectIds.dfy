/**
 * User identifiers. A request names a user by the 24-character hexadecimal
 * text of a MongoDB ObjectId; the store keys users by the 12 bytes that text
 * denotes. The validity test is the anchored pattern `[a-fA-F0-9]{24}`
 * applied to the identifier, a missing identifier counting as the empty text.
 */
module ObjectIds {
  import opened Wrappers

  /** Number of characters in the text form of an ObjectId. */
  const HexLength := 24

  type Byte = b: int | 0 <= b < 256

  /** The 12 bytes of an ObjectId. */
  type ObjectId = s: seq<Byte> | |s| == 12 witness [0, 0, 0, 0, 0, 0, 0, 0, 0, 0, 0, 0]

  /** The character class `[a-fA-F0-9]`. */
  predicate IsHexChar(c: char) {
    '0' <= c <= '9' || 'a' <= c <= 'f' || 'A' <= c <= 'F'
  }

  /** Does all of `s` match `[a-fA-F0-9]{n}`? */
  function MatchesHexRun(s: string, n: nat): (b: bool)
    ensures b <==> |s| == n && forall i :: 0 <= i < |s| ==> IsHexChar(s[i])
  {
    if n == 0 then s == []
    else s != [] && IsHexChar(s[0]) && MatchesHexRun(s[1..], n - 1)
  }

  /** The text the pattern is applied to: a missing identifier becomes "". */
  function OrEmpty(id: Option<string>): string {
    if id.Some? then id.value else ""
  }

  /** The validity test applied to a user identifier before any lookup. */
  predicate IsValidObjectId(id: Option<string>) {
    MatchesHexRun(OrEmpty(id), HexLength)
  }

  lemma ValidObjectIdShape(id: Option<string>)
    ensures IsValidObjectId(id) <==>
      id.Some? && |id.value| == HexLength && forall i :: 0 <= i < |id.value| ==> IsHexChar(id.value[i])
    ensures !IsValidObjectId(None) && !IsValidObjectId(Some(""))
  {
  }

  /** The value of one hexadecimal digit, either case. */
  function HexDigitValue(c: char): (v: int)
    requires IsHexChar(c)
    ensures 0 <= v < 16
  {
    if '0' <= c <= '9' then c as int - '0' as int
    else if 'a' <= c <= 'f' then c as int - 'a' as int + 10
    else c as int - 'A' as int + 10
  }

  /** The lower-case digit for a value below 16. */
  function LowerHexDigit(v: int): (c: char)
    requires 0 <= v < 16
    ensures IsHexChar(c) && HexDigitValue(c) == v
  {
    if v < 10 then ('0' as int + v) as char else ('a' as int + v - 10) as char
  }

  /** An upper-case hexadecimal letter folded to lower case; any other character kept. */
  function LowerChar(c: char): (r: char)
    ensures 'A' <= c <= 'F' ==> 'a' <= r <= 'f' && r as int - 'a' as int == c as int - 'A' as int
    ensures !('A' <= c <= 'F') ==> r == c
  {
    if 'A' <= c <= 'F' then (c as int + 32) as char else c
  }

  /** `LowerChar` applied to every character. */
  function LowerHex(s: string): (r: string)
    ensures |r| == |s|
  {
    if s == [] then [] else [LowerChar(s[0])] + LowerHex(s[1..])
  }

  /** Each character of the folded text is the folded character. */
  lemma {:induction false} LowerHexAt(s: string, i: int)
    requires 0 <= i < |s|
    ensures LowerHex(s)[i] == LowerChar(s[i])
  {
    if i > 0 {
      LowerHexAt(s[1..], i - 1);
    }
  }

  predicate AllHex(s: string) {
    forall i :: 0 <= i < |s| ==> IsHexChar(s[i])
  }

  /** Pairs of hexadecimal digits read as bytes, high digit first. */
  function DecodeHex(s: string): (bytes: seq<Byte>)
    requires |s| % 2 == 0 && AllHex(s)
    ensures |bytes| == |s| / 2
  {
    if s == [] then []
    else [16 * HexDigitValue(s[0]) + HexDigitValue(s[1])] + DecodeHex(s[2..])
  }

  /** Bytes written as pairs of lower-case hexadecimal digits. */
  function EncodeHex(bytes: seq<Byte>): (s: string)
    ensures |s| == 2 * |bytes| && AllHex(s)
  {
    if bytes == [] then []
    else [LowerHexDigit(bytes[0] / 16), LowerHexDigit(bytes[0] % 16)] + EncodeHex(bytes[1..])
  }

  /** `new ObjectId(text)` for a text that passed the validity test. */
  function FromHexString(text: string): (id: ObjectId)
    requires IsValidObjectId(Some(text))
    ensures EncodeHex(id) == LowerHex(text)
  {
    EncodeDecodeHex(text);
    DecodeHex(text)
  }

  /** The canonical (lower-case) text form of an ObjectId. */
  function ToHexString(id: ObjectId): (text: string)
    ensures IsValidObjectId(Some(text))
  {
    EncodeHex(id)
  }

  lemma {:induction false} DecodeEncodeHex(bytes: seq<Byte>)
    ensures DecodeHex(EncodeHex(bytes)) == bytes
  {
    if bytes != [] {
      var s := EncodeHex(bytes);
      assert s[2..] == EncodeHex(bytes[1..]);
      DecodeEncodeHex(bytes[1..]);
    }
  }

  lemma DigitRoundTrip(c: char)
    requires IsHexChar(c)
    ensures LowerHexDigit(HexDigitValue(c)) == LowerChar(c)
  {
  }

  lemma ByteDigits(h: int, l: int)
    requires 0 <= h < 16 && 0 <= l < 16
    ensures (16 * h + l) / 16 == h && (16 * h + l) % 16 == l
  {
  }

  /** Folding case two characters at a time. */
  lemma LowerHexPair(s: string)
    requires |s| >= 2
    ensures LowerHex(s) == [LowerChar(s[0]), LowerChar(s[1])] + LowerHex(s[2..])
  {
    var x, y, rest := LowerChar(s[0]), LowerChar(s[1]), LowerHex(s[2..]);
    assert s[1..][1..] == s[2..];
    assert LowerHex(s[1..]) == [y] + rest;
    assert [x] + ([y] + rest) == [x, y] + rest;
  }

  /** Encoding the byte decoded from two digits writes those digits in lower case. */
  lemma PairRoundTrip(a: char, b: char)
    requires IsHexChar(a) && IsHexChar(b)
    ensures var v := 16 * HexDigitValue(a) + HexDigitValue(b);
      LowerHexDigit(v / 16) == LowerChar(a) && LowerHexDigit(v % 16) == LowerChar(b)
  {
    ByteDigits(HexDigitValue(a), HexDigitValue(b));
    DigitRoundTrip(a);
    DigitRoundTrip(b);
  }

  /** Encoding one more byte in front writes its two digits in front. */
  lemma EncodeHexCons(v: Byte, rest: seq<Byte>)
    ensures EncodeHex([v] + rest) == [LowerHexDigit(v / 16), LowerHexDigit(v % 16)] + EncodeHex(rest)
  {
    assert ([v] + rest)[1..] == rest;
  }

  lemma {:induction false} EncodeDecodeHex(s: string)
    requires |s| % 2 == 0 && AllHex(s)
    ensures EncodeHex(DecodeHex(s)) == LowerHex(s)
  {
    if s != [] {
      assert AllHex(s[2..]);
      var v, rest := 16 * HexDigitValue(s[0]) + HexDigitValue(s[1]), DecodeHex(s[2..]);
      assert DecodeHex(s) == [v] + rest;
      EncodeHexCons(v, rest);
      PairRoundTrip(s[0], s[1]);
      EncodeDecodeHex(s[2..]);
      LowerHexPair(s);
    }
  }

  /** Reading an ObjectId's text form gives the ObjectId back. */
  lemma ObjectIdRoundTrip(id: ObjectId)
    ensures FromHexString(ToHexString(id)) == id
  {
    DecodeEncodeHex(id);
  }

  /** Two valid texts denote the same ObjectId exactly when they agree up to letter case. */
  lemma SameObjectIdIffSameLowerCase(a: string, b: string)
    requires IsValidObjectId(Some(a)) && IsValidObjectId(Some(b))
    ensures FromHexString(a) == FromHexString(b) <==> LowerHex(a) == LowerHex(b)
  {
    EncodeDecodeHex(a);
    EncodeDecodeHex(b);
    DecodeEncodeHex(DecodeHex(a));
    DecodeEncodeHex(DecodeHex(b));
  }
}
