/**
 * The 12-byte document identifier of the database driver and its 24-digit
 * hexadecimal spelling: `ObjectIDFromHex` on the way in, `Hex` on the way out.
 */
module ObjectIds {
  import opened Wrappers
  import opened Ascii

  type Byte = x: int | 0 <= x < 256

  type ObjectId = b: seq<Byte> | |b| == 12 witness [0, 0, 0, 0, 0, 0, 0, 0, 0, 0, 0, 0]

  /** The zero identifier, which a freshly built user carries until the store assigns one. */
  const NilObjectId: ObjectId := [0, 0, 0, 0, 0, 0, 0, 0, 0, 0, 0, 0]

  predicate IsHexDigit(c: char) {
    '0' <= c <= '9' || 'a' <= c <= 'f' || 'A' <= c <= 'F'
  }

  function HexValue(c: char): (v: nat)
    requires IsHexDigit(c)
    ensures v < 16
  {
    if '0' <= c <= '9' then c as int - '0' as int
    else if 'a' <= c <= 'f' then c as int - 'a' as int + 10
    else c as int - 'A' as int + 10
  }

  /** The lower-case digit `Hex` writes for a value below 16. */
  function LowerHexDigit(v: nat): (c: char)
    requires v < 16
    ensures IsHexDigit(c) && HexValue(c) == v
    ensures !('A' <= c <= 'Z')
  {
    if v < 10 then ('0' as int + v) as char else ('a' as int + v - 10) as char
  }

  function EncodeHex(bs: seq<Byte>): (s: string)
    ensures |s| == 2 * |bs|
  {
    if bs == [] then "" else [LowerHexDigit(bs[0] / 16), LowerHexDigit(bs[0] % 16)] + EncodeHex(bs[1..])
  }

  /** `hex.Decode`: pairs of hexadecimal digits, either case, into bytes. */
  function DecodeHex(s: string): (r: Option<seq<Byte>>)
    ensures r.Some? ==> 2 * |r.value| == |s|
  {
    if s == [] then Some([])
    else if |s| == 1 || !IsHexDigit(s[0]) || !IsHexDigit(s[1]) then None
    else match DecodeHex(s[2..])
      case None => None
      case Some(rest) => Some([HexValue(s[0]) * 16 + HexValue(s[1])] + rest)
  }

  /** `ObjectID.Hex`: 24 lower-case hexadecimal digits. */
  function Hex(id: ObjectId): (s: string)
    ensures |s| == 24
  {
    EncodeHex(id)
  }

  predicate IsObjectIdHex(s: string) {
    |s| == 24 && forall i :: 0 <= i < |s| ==> IsHexDigit(s[i])
  }

  lemma {:induction false} DecodeHexAccepts(s: string)
    ensures DecodeHex(s).Some? <==> (|s| % 2 == 0 && forall i :: 0 <= i < |s| ==> IsHexDigit(s[i]))
    decreases |s|
  {
    if |s| >= 2 {
      DecodeHexAccepts(s[2..]);
      if forall i :: 0 <= i < |s| ==> IsHexDigit(s[i]) {
        assert forall i :: 0 <= i < |s[2..]| ==> IsHexDigit(s[2..][i]) by {
          forall i | 0 <= i < |s[2..]| ensures IsHexDigit(s[2..][i]) { assert s[2..][i] == s[i + 2]; }
        }
      }
      if IsHexDigit(s[0]) && IsHexDigit(s[1]) && forall i :: 0 <= i < |s[2..]| ==> IsHexDigit(s[2..][i]) {
        forall i | 0 <= i < |s| ensures IsHexDigit(s[i]) {
          if i >= 2 { assert s[i] == s[2..][i - 2]; }
        }
      }
    } else if |s| == 1 {
      assert |s| % 2 == 1;
    }
  }

  /**
   * `ObjectIDFromHex`: 24 characters are required first, then `hex.Decode`
   * must succeed; so a string is accepted exactly when it is 24 hexadecimal
   * digits.
   */
  function ObjectIdFromHex(s: string): (r: Option<ObjectId>)
    ensures r.Some? <==> IsObjectIdHex(s)
  {
    if |s| != 24 then None
    else
      DecodeHexAccepts(s);
      match DecodeHex(s)
      case None => None
      case Some(bytes) => Some(bytes)
  }

  lemma {:induction false} DecodeEncode(bs: seq<Byte>)
    ensures DecodeHex(EncodeHex(bs)) == Some(bs)
    decreases |bs|
  {
    if bs != [] {
      DecodeEncode(bs[1..]);
      var s := EncodeHex(bs);
      assert s[2..] == EncodeHex(bs[1..]);
      assert [bs[0]] + bs[1..] == bs;
    }
  }

  lemma {:induction false} EncodeDecode(s: string, bs: seq<Byte>)
    requires DecodeHex(s) == Some(bs)
    ensures EncodeHex(bs) == LowerString(s)
    decreases |s|
  {
    if s != [] {
      var rest := DecodeHex(s[2..]).value;
      EncodeDecode(s[2..], rest);
      assert bs == [HexValue(s[0]) * 16 + HexValue(s[1])] + rest;
      assert bs[1..] == rest;
      ByteDigits(HexValue(s[0]), HexValue(s[1]));
      HexDigitLower(s[0]);
      HexDigitLower(s[1]);
      LowerStringPair(s);
    }
  }

  lemma ByteDigits(hi: nat, lo: nat)
    requires hi < 16 && lo < 16
    ensures (hi * 16 + lo) / 16 == hi && (hi * 16 + lo) % 16 == lo
  {
  }

  lemma LowerStringPair(s: string)
    requires |s| >= 2
    ensures LowerString(s) == [LowerChar(s[0]), LowerChar(s[1])] + LowerString(s[2..])
  {
  }

  lemma HexDigitLower(c: char)
    requires IsHexDigit(c)
    ensures LowerHexDigit(HexValue(c)) == LowerChar(c)
  {
  }

  /** Parsing the driver's own spelling of an identifier gives that identifier back. */
  lemma ParseHex(id: ObjectId)
    ensures ObjectIdFromHex(Hex(id)) == Some(id)
  {
    DecodeEncode(id);
  }

  /** An accepted identifier string is the lower-case spelling of what it parses to, up to case. */
  lemma HexParse(s: string)
    requires ObjectIdFromHex(s).Some?
    ensures Hex(ObjectIdFromHex(s).value) == LowerString(s)
  {
    EncodeDecode(s, DecodeHex(s).value);
  }

  /** Two identifier strings name the same identifier exactly when they agree up to case. */
  lemma SameIdIffSameLower(s: string, t: string)
    requires ObjectIdFromHex(s).Some? && ObjectIdFromHex(t).Some?
    ensures ObjectIdFromHex(s) == ObjectIdFromHex(t) <==> LowerString(s) == LowerString(t)
  {
    HexParse(s);
    HexParse(t);
    if LowerString(s) == LowerString(t) {
      ParseHex(ObjectIdFromHex(s).value);
      ParseHex(ObjectIdFromHex(t).value);
      var a, b := ObjectIdFromHex(s).value, ObjectIdFromHex(t).value;
      assert EncodeHex(a) == EncodeHex(b);
      DecodeEncode(a);
      DecodeEncode(b);
    }
  }

  lemma {:induction false} EncodeHexDigits(bs: seq<Byte>)
    ensures forall i :: 0 <= i < |EncodeHex(bs)| ==> IsHexDigit(EncodeHex(bs)[i]) && !('A' <= EncodeHex(bs)[i] <= 'Z')
    decreases |bs|
  {
    if bs != [] {
      EncodeHexDigits(bs[1..]);
      var s := EncodeHex(bs);
      forall i | 0 <= i < |s| ensures IsHexDigit(s[i]) && !('A' <= s[i] <= 'Z') {
        if i >= 2 { assert s[i] == EncodeHex(bs[1..])[i - 2]; }
      }
    }
  }

  /** Every character of an identifier's spelling is a lower-case hexadecimal digit. */
  lemma HexIsHexDigits(id: ObjectId)
    ensures IsObjectIdHex(Hex(id))
    ensures LowerString(Hex(id)) == Hex(id)
  {
    EncodeHexDigits(id);
  }
}
