/**
 * The slot-name arithmetic of `helpers.rs`: `add1_char` moves a character one
 * code point up when the next code point is a character, and `add1_str` does
 * that to every character of a string independently (no carry).
 */
module Helpers {

  /** Whether `n` is a Unicode scalar value, i.e. what `char::from_u32` accepts. */
  predicate IsScalar(n: int)
  {
    0 <= n < 0xD800 || 0xE000 <= n < 0x11_0000
  }

  /** The two characters whose successor is not a character: U+D7FF (a surrogate follows) and U+10FFFF. */
  predicate IsTop(c: char)
  {
    c as int == 0xD7FF || c as int == 0x10FFFF
  }

  /** `from_u32(c + 1).unwrap_or(c)`. */
  function Add1Char(c: char): (r: char)
    ensures c as int <= r as int
    ensures r != c ==> r as int == c as int + 1
    ensures r == c <==> IsTop(c)
  {
    if IsScalar(c as int + 1) then (c as int + 1) as char else c
  }

  /** `s.chars().map(add1_char).collect()`. */
  function Add1Str(s: string): (r: string)
    ensures |r| == |s|
    ensures forall i :: 0 <= i < |s| ==> r[i] == Add1Char(s[i])
  {
    if s == [] then [] else [Add1Char(s[0])] + Add1Str(s[1..])
  }

  /** `add1_str` changes nothing exactly when every character is at its top. */
  lemma Add1StrFixpoint(s: string)
    ensures Add1Str(s) == s <==> forall i :: 0 <= i < |s| ==> IsTop(s[i])
  {
    if Add1Str(s) == s {
      forall i | 0 <= i < |s| ensures IsTop(s[i]) {
        assert Add1Str(s)[i] == Add1Char(s[i]);
      }
    }
  }

  /** A one-character string below U+D7FF moves to the next code point. */
  lemma {:induction false} Add1StrSingle(c: char)
    requires c as int < 0xD7FF
    ensures Add1Str([c]) == [(c as int + 1) as char]
  {
    assert Add1Str([c])[0] == Add1Char(c);
  }

  /** How far the characters of `s` are from U+10FFFF, summed. */
  function Headroom(s: string): nat
  {
    if s == [] then 0 else (0x10FFFF - s[0] as int) + Headroom(s[1..])
  }

  /** `add1_str` never raises the headroom, and lowers it whenever it changes the string. */
  lemma {:induction false} Add1StrHeadroom(s: string)
    ensures Headroom(Add1Str(s)) <= Headroom(s)
    ensures Add1Str(s) != s ==> Headroom(Add1Str(s)) < Headroom(s)
  {
    if s != [] {
      var r := Add1Str(s);
      assert r[1..] == Add1Str(s[1..]);
      Add1StrHeadroom(s[1..]);
      if r != s {
        assert r[0] != s[0] || r[1..] != s[1..];
      }
    }
  }
}
