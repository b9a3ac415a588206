/** UTF-8: what the encoding is (section 4 of RFC 3629), the agent's byte checker, and clipping a string
    at a character boundary as both ends of the wire do it. */
module Utf8 {
  type byte = x: int | 0 <= x < 256

  /** A Unicode scalar value: a code point that is not a surrogate. */
  predicate IsScalar(c: int) { 0 <= c < 0xD800 || 0xE000 <= c < 0x110000 }

  /** The bytes of one scalar value. */
  function EncodeChar(c: int): (s: seq<byte>)
    requires IsScalar(c)
    ensures 1 <= |s| <= 4
  {
    if c < 0x80 then [c]
    else if c < 0x800 then [0xC0 + c / 64, 0x80 + c % 64]
    else if c < 0x10000 then [0xE0 + c / 4096, 0x80 + c / 64 % 64, 0x80 + c % 64]
    else [0xF0 + c / 262144, 0x80 + c / 4096 % 64, 0x80 + c / 64 % 64, 0x80 + c % 64]
  }

  function EncodeText(cs: seq<int>): seq<byte>
    requires forall i | 0 <= i < |cs| :: IsScalar(cs[i])
  {
    if cs == [] then [] else EncodeChar(cs[0]) + EncodeText(cs[1..])
  }

  predicate IsContinuation(b: byte) { 0x80 <= b <= 0xBF }

  /** The length of the character `s` starts with, or 0 when it does not start with one. */
  function CharLength(s: seq<byte>): (n: nat)
    ensures n <= |s| && n <= 4
  {
    if s == [] then 0
    else if s[0] < 0x80 then 1
    else if s[0] < 0xC2 then 0
    else if s[0] <= 0xDF then
      if |s| >= 2 && IsContinuation(s[1]) then 2 else 0
    else if s[0] <= 0xEF then
      if |s| >= 3 && SecondOk(s[0], s[1]) && IsContinuation(s[2]) then 3 else 0
    else if s[0] <= 0xF4 then
      if |s| >= 4 && SecondOk(s[0], s[1]) && IsContinuation(s[2]) && IsContinuation(s[3]) then 4 else 0
    else 0
  }

  /** No overlong form, no surrogate, nothing past U+10FFFF. */
  predicate SecondOk(first: byte, second: byte) {
    (if first == 0xE0 then 0xA0 else if first == 0xF0 then 0x90 else 0x80) <= second
    && second <= (if first == 0xED then 0x9F else if first == 0xF4 then 0x8F else 0xBF)
  }

  /** A whole number of characters. */
  predicate Valid(s: seq<byte>) {
    s == [] || (CharLength(s) > 0 && Valid(s[CharLength(s)..]))
  }

  type Str = s: seq<byte> | Valid(s)

  // ------------------------------------------------------------ against the definition

  lemma LengthExtends(s: seq<byte>, t: seq<byte>)
    requires CharLength(s) > 0
    ensures CharLength(s + t) == CharLength(s)
  {
  }

  lemma EncodedHasLength(c: int, t: seq<byte>)
    requires IsScalar(c)
    ensures CharLength(EncodeChar(c) + t) == |EncodeChar(c)|
  {
    var e := EncodeChar(c);
    if 0x800 <= c < 0x10000 {
      ThreeBytes(c);
    } else if c >= 0x10000 {
      FourBytes(c);
    }
    assert CharLength(e) == |e|;
    LengthExtends(e, t);
  }

  lemma ThreeBytes(c: int)
    requires 0x800 <= c < 0x10000 && IsScalar(c)
    ensures SecondOk(0xE0 + c / 4096, 0x80 + c / 64 % 64) && c / 4096 < 16
  {
    assert c / 4096 == c / 64 / 64;
  }

  lemma FourBytes(c: int)
    requires 0x10000 <= c < 0x110000
    ensures SecondOk(0xF0 + c / 262144, 0x80 + c / 4096 % 64) && c / 262144 <= 4
  {
    assert c / 262144 == c / 4096 / 64;
  }

  /** The scalar value a character's bytes denote. */
  function DecodeChar(s: seq<byte>): (c: int)
    requires CharLength(s) > 0
  {
    var n, b: seq<int> := CharLength(s), s;
    if n == 1 then b[0]
    else if n == 2 then (b[0] - 0xC0) * 64 + (b[1] - 0x80)
    else if n == 3 then ((b[0] - 0xE0) * 64 + (b[1] - 0x80)) * 64 + (b[2] - 0x80)
    else (((b[0] - 0xF0) * 64 + (b[1] - 0x80)) * 64 + (b[2] - 0x80)) * 64 + (b[3] - 0x80)
  }

  lemma Sextet(a: int, b: int)
    requires 0 <= b < 64
    ensures (a * 64 + b) / 64 == a && (a * 64 + b) % 64 == b
  {
  }

  lemma ThreeDecoded(s: seq<byte>)
    requires CharLength(s) == 3
    ensures IsScalar(DecodeChar(s)) && EncodeChar(DecodeChar(s)) == s[..3]
  {
    var b: seq<int> := s;
    var hi: int := (b[0] - 0xE0) * 64 + (b[1] - 0x80);
    Sextet(b[0] - 0xE0, b[1] - 0x80);
    Sextet(hi, b[2] - 0x80);
    assert DecodeChar(s) / 4096 == hi / 64;
  }

  lemma FourDecoded(s: seq<byte>)
    requires CharLength(s) == 4
    ensures IsScalar(DecodeChar(s)) && EncodeChar(DecodeChar(s)) == s[..4]
  {
    var b: seq<int> := s;
    var mid: int := (b[0] - 0xF0) * 64 + (b[1] - 0x80);
    var hi: int := mid * 64 + (b[2] - 0x80);
    Sextet(b[0] - 0xF0, b[1] - 0x80);
    Sextet(mid, b[2] - 0x80);
    Sextet(hi, b[3] - 0x80);
    assert DecodeChar(s) / 4096 == hi / 64 && DecodeChar(s) / 262144 == mid / 64;
  }

  lemma ShortDecoded(s: seq<byte>)
    requires 1 <= CharLength(s) <= 2
    ensures IsScalar(DecodeChar(s)) && EncodeChar(DecodeChar(s)) == s[..CharLength(s)]
  {
    var b: seq<int> := s;
    if CharLength(s) == 2 {
      Sextet(b[0] - 0xC0, b[1] - 0x80);
    }
  }

  lemma DecodedEncodes(s: seq<byte>)
    requires CharLength(s) > 0
    ensures IsScalar(DecodeChar(s)) && EncodeChar(DecodeChar(s)) == s[..CharLength(s)]
  {
    hide CharLength, DecodeChar, EncodeChar, IsScalar;
    if CharLength(s) == 3 {
      ThreeDecoded(s);
    } else if CharLength(s) == 4 {
      FourDecoded(s);
    } else {
      ShortDecoded(s);
    }
  }

  lemma {:induction false} EncodedIsValid(cs: seq<int>)
    requires forall i | 0 <= i < |cs| :: IsScalar(cs[i])
    ensures Valid(EncodeText(cs))
  {
    if cs != [] {
      EncodedIsValid(cs[1..]);
      EncodedHasLength(cs[0], EncodeText(cs[1..]));
      assert EncodeText(cs)[|EncodeChar(cs[0])|..] == EncodeText(cs[1..]);
    }
  }

  lemma {:induction false} ValidIsEncoded(s: seq<byte>) returns (cs: seq<int>)
    requires Valid(s)
    ensures (forall i | 0 <= i < |cs| :: IsScalar(cs[i])) && EncodeText(cs) == s
  {
    hide CharLength, DecodeChar, EncodeChar, IsScalar;
    if s == [] {
      return [];
    }
    var rest := ValidIsEncoded(s[CharLength(s)..]);
    DecodedEncodes(s);
    cs := [DecodeChar(s)] + rest;
    assert cs[1..] == rest;
    assert s == s[..CharLength(s)] + s[CharLength(s)..];
  }

  /** The accepted byte strings are exactly the encodings of sequences of scalar values. */
  lemma ValidIffEncoding(s: seq<byte>)
    ensures Valid(s) <==>
            exists cs: seq<int> :: (forall i | 0 <= i < |cs| :: IsScalar(cs[i])) && EncodeText(cs) == s
  {
    if Valid(s) {
      var cs := ValidIsEncoded(s);
    } else if cs: seq<int> :| (forall i | 0 <= i < |cs| :: IsScalar(cs[i])) && EncodeText(cs) == s {
      EncodedIsValid(cs);
    }
  }

  // ------------------------------------------------------------ the agent's checker

  /** `utf8_ok`: the cursor walks character by character; a bad byte anywhere refuses the whole. */
  method Utf8Ok(s: seq<byte>) returns (ok: bool)
    ensures ok == Valid(s)
  {
    var i := 0;
    while i < |s|
      invariant i <= |s| && Valid(s) == Valid(s[i..])
    {
      var b := s[i];
      ghost var t := s[i..];
      if b < 0x80 {
        assert s[i + 1..] == t[1..];
        i := i + 1;
        continue;
      }
      var lo, hi, more := 0x80, 0xBF, 1;
      if b < 0xC2 {
        return false;
      }
      if b > 0xDF {
        if b > 0xEF {
          if b > 0xF4 {
            return false;
          }
          more := 3;
          if b == 0xF0 {
            lo := 0x90;
          }
          if b == 0xF4 {
            hi := 0x8F;
          }
        } else {
          more := 2;
          if b == 0xE0 {
            lo := 0xA0;
          }
          if b == 0xED {
            hi := 0x9F;
          }
        }
      }
      if i + 1 + more > |s| {
        return false;
      }
      if s[i + 1] < lo || s[i + 1] > hi {
        return false;
      }
      var k := 2;
      while k <= more
        invariant 2 <= k <= more + 1
        invariant forall x | 2 <= x < k :: IsContinuation(t[x])
      {
        assert t[k] == s[i + k];
        if !IsContinuation(s[i + k]) {
          return false;
        }
        k := k + 1;
      }
      assert t[1] == s[i + 1];
      assert CharLength(t) == 1 + more;
      assert s[i + 1 + more..] == t[1 + more..];
      i := i + 1 + more;
    }
    return true;
  }

  // ------------------------------------------------------------ clipping

  /** Rust's `is_char_boundary`, on valid text. */
  predicate IsBoundary(s: seq<byte>, i: nat)
    requires i <= |s|
  {
    i == 0 || i == |s| || !IsContinuation(s[i])
  }

  lemma ShortPrefix(s: seq<byte>, i: nat)
    requires CharLength(s) > 0 && i < CharLength(s)
    ensures CharLength(s[..i]) == 0 && (i > 0 ==> IsContinuation(s[i])) && !IsContinuation(s[0])
  {
  }

  lemma LongPrefix(s: seq<byte>, i: nat)
    requires CharLength(s) > 0 && CharLength(s) <= i <= |s|
    ensures CharLength(s[..i]) == CharLength(s)
  {
  }

  /** A prefix of valid text is valid exactly when it ends on a character boundary. */
  lemma {:induction false} BoundaryIffValid(s: seq<byte>, i: nat)
    requires Valid(s) && i <= |s|
    ensures Valid(s[..i]) <==> IsBoundary(s, i)
  {
    if s != [] && i > 0 {
      var n := CharLength(s);
      if i < n {
        ShortPrefix(s, i);
      } else {
        LongPrefix(s, i);
        BoundaryIffValid(s[n..], i - n);
        assert s[..i][n..] == s[n..][..i - n];
        if i == n && i < |s| {
          StartsCharacter(s[n..]);
          assert s[i] == s[n..][0];
        }
        assert i > n && i < |s| ==> s[i] == s[n..][i - n];
      }
    }
  }

  lemma StartsCharacter(s: seq<byte>)
    requires Valid(s) && s != []
    ensures !IsContinuation(s[0])
  {
  }

  /** The longest valid prefix of `s` within `max` bytes. */
  ghost predicate LongestWithin(s: seq<byte>, max: nat, r: seq<byte>) {
    && r <= s && |r| <= max && Valid(r)
    && forall i: nat | |r| < i <= max && i <= |s| :: !Valid(s[..i])
  }

  lemma LongestIsUnique(s: seq<byte>, max: nat, r: seq<byte>, r': seq<byte>)
    requires LongestWithin(s, max, r) && LongestWithin(s, max, r')
    ensures r == r'
  {
    assert r == s[..|r|] && r' == s[..|r'|];
  }

  /** The clipped string, as a function: step back from `max` to a boundary. */
  function ClipAt(s: seq<byte>, end: nat): (r: seq<byte>)
    requires end <= |s|
    ensures |r| <= end && r == s[..|r|]
  {
    if IsBoundary(s, end) then s[..end] else ClipAt(s, end - 1)
  }

  function Clip(s: seq<byte>, max: nat): (r: seq<byte>)
    ensures |r| <= max && r <= s && (|s| <= max ==> r == s)
  {
    if |s| <= max then s else ClipAt(s, max)
  }

  lemma {:induction false} ClipAtLongest(s: seq<byte>, end: nat)
    requires Valid(s) && end <= |s|
    ensures LongestWithin(s, end, ClipAt(s, end))
  {
    BoundaryIffValid(s, end);
    if !IsBoundary(s, end) {
      ClipAtLongest(s, end - 1);
    }
  }

  /** Clipping valid text keeps the longest prefix within the limit that is still valid. */
  lemma ClipLongest(s: seq<byte>, max: nat)
    requires Valid(s)
    ensures LongestWithin(s, max, Clip(s, max))
  {
    if |s| > max {
      ClipAtLongest(s, max);
    } else {
      assert s[..|s|] == s;
    }
  }

  /** So any clip that gives the longest valid prefix gives this one. */
  lemma ClipIff(s: Str, max: nat, r: seq<byte>)
    ensures LongestWithin(s, max, r) <==> r == Clip(s, max)
  {
    hide Clip, LongestWithin;
    ClipLongest(s, max);
    if LongestWithin(s, max, r) {
      LongestIsUnique(s, max, r, Clip(s, max));
    }
  }

  /** phi-rpc's `clip`. */
  method RustClip(s: Str, max: nat) returns (r: seq<byte>)
    ensures r == Clip(s, max) && LongestWithin(s, max, r)
  {
    ClipLongest(s, max);
    if |s| <= max {
      return s;
    }
    var end := max;
    while !IsBoundary(s, end)
      invariant 0 <= end <= |s| && ClipAt(s, end) == ClipAt(s, max)
      decreases end
    {
      end := end - 1;
    }
    r := s[..end];
  }

  /** The agent's `w_str_end` over the bytes written since `w_str_begin`: it looks at the byte at the cut
      and has no test for position 0, which valid text never reaches as a continuation. */
  method AgentClip(s: Str, max: nat) returns (r: seq<byte>)
    ensures r == Clip(s, max) && LongestWithin(s, max, r)
  {
    ClipLongest(s, max);
    if |s| <= max {
      return s;
    }
    var end := max;
    StartsCharacter(s);
    while IsContinuation(s[end])
      invariant 0 <= end < |s| && ClipAt(s, end) == ClipAt(s, max)
      decreases end
    {
      assert end != 0;
      end := end - 1;
    }
    r := s[..end];
  }
}
