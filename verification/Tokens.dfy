/** Byte strings, the option-name grammar shared by every argv scan, and the
    UTF-8 test that decides which of two code paths a token takes.

    A token is a `string` with one `char` per byte. */
module Tokens {

  type Token = string

  datatype Option<+T> = None | Some(value: T)

  datatype Result<+T, +E> = Ok(value: T) | Err(error: E)

  predicate IsDigit(c: char) {
    '0' <= c <= '9'
  }

  /** Length of the option name: everything before the first '='. */
  function NameLength(s: Token): (n: nat)
    ensures n <= |s|
    ensures '=' !in s[..n]
    ensures n < |s| ==> s[n] == '='
  {
    if s == [] || s[0] == '=' then 0 else 1 + NameLength(s[1..])
  }

  function NameOf(s: Token): Token {
    s[..NameLength(s)]
  }

  lemma {:induction false} NameLengthIs(s: Token, n: nat)
    requires n <= |s| && '=' !in s[..n] && (n < |s| ==> s[n] == '=')
    ensures NameLength(s) == n
  {
    if n > 0 {
      assert s[0] == s[..n][0];
      assert s[1..][..n - 1] == s[..n][1..];
      NameLengthIs(s[1..], n - 1);
    }
  }

  lemma NameOfUnattached(s: Token)
    requires '=' !in s
    ensures NameOf(s) == s
  {
    assert s[..|s|] == s;
    NameLengthIs(s, |s|);
  }

  lemma NameOfAttached(name: Token, value: Token)
    requires '=' !in name
    ensures NameOf(name + "=" + value) == name
    ensures NameLength(name + "=" + value) == |name|
  {
    var s := name + "=" + value;
    assert s[..|name|] == name;
    NameLengthIs(s, |name|);
  }

  /** Does the token, read after its dashes, look like `name` or `name=value`
      with a name that starts with neither a dash nor a digit? */
  predicate NameShaped(rest: Token) {
    rest != [] && rest[0] != '-' && !IsDigit(rest[0])
  }

  predicate Continuation(c: char) {
    0x80 <= c as int < 0xC0
  }

  /** Width of the well-formed UTF-8 sequence at the head of `s`, 0 if none
      (Table 3-7 of the Unicode Standard). */
  function Utf8Width(s: Token): (w: nat)
    ensures w <= |s|
    ensures s != [] && s[0] as int < 0x80 ==> w == 1
    ensures forall i :: 0 < i < w ==> Continuation(s[i])
    ensures w > 1 ==> s[0] as int >= 0xC2
  {
    if s == [] then 0
    else
      var b := s[0] as int;
      if b < 0x80 then 1
      else if 0xC2 <= b <= 0xDF then
        if |s| >= 2 && Continuation(s[1]) then 2 else 0
      else if 0xE0 <= b <= 0xEF then
        if && |s| >= 3 && Continuation(s[1]) && Continuation(s[2])
           && (b == 0xE0 ==> s[1] as int >= 0xA0)
           && (b == 0xED ==> s[1] as int <= 0x9F)
        then 3 else 0
      else if 0xF0 <= b <= 0xF4 then
        if && |s| >= 4 && Continuation(s[1]) && Continuation(s[2]) && Continuation(s[3])
           && (b == 0xF0 ==> s[1] as int >= 0x90)
           && (b == 0xF4 ==> s[1] as int <= 0x8F)
        then 4 else 0
      else 0
  }

  predicate Utf8(s: Token) {
    s == [] || (Utf8Width(s) > 0 && Utf8(s[Utf8Width(s)..]))
  }

  /** An ASCII byte is always a character of its own, so UTF-8 validity of a
      whole token is validity of the two halves around it. */
  lemma {:induction false} Utf8SplitsAtAscii(s: Token, i: nat)
    requires i < |s| && s[i] as int < 0x80
    ensures Utf8(s) <==> Utf8(s[..i]) && Utf8(s[i..])
    decreases |s|
  {
    hide Utf8Width;
    if i == 0 {
      assert s[0..] == s;
    } else {
      var w := Utf8Width(s);
      WidthBeforeAscii(s, i);
      if w > 0 {
        SliceAfter(s, w, i);
        Utf8SplitsAtAscii(s[w..], i - w);
      }
    }
  }

  /** A character that starts before an ASCII byte ends before it. */
  lemma WidthBeforeAscii(s: Token, i: nat)
    requires 0 < i < |s| && s[i] as int < 0x80
    ensures Utf8Width(s) <= i && Utf8Width(s[..i]) == Utf8Width(s)
  {
    assert forall k | 0 <= k < i :: s[..i][k] == s[k];
  }

  lemma SliceAfter(s: Token, w: nat, i: nat)
    requires w <= i <= |s|
    ensures s[..i][w..] == s[w..][..i - w] && s[i..] == s[w..][i - w..]
  {
    var tail := s[w..];
    assert forall k | 0 <= k < i - w :: s[..i][w..][k] == tail[..i - w][k];
    assert forall k | 0 <= k < |s| - i :: s[i..][k] == tail[i - w..][k];
  }

  lemma NameOfUtf8IsUtf8(s: Token)
    requires Utf8(s)
    ensures Utf8(NameOf(s))
  {
    var n := NameLength(s);
    if n < |s| {
      Utf8SplitsAtAscii(s, n);
    } else {
      assert NameOf(s) == s;
    }
  }

  /** Dropping a leading ASCII byte keeps validity, in both directions. */
  lemma Utf8Tail(s: Token)
    requires s != [] && s[0] as int < 0x80
    ensures Utf8(s) <==> Utf8(s[1..])
  {
  }

  /** `segment_option_name`: the name of a single- or double-dash token. */
  function SegmentOptionName(bytes: Token): Option<Token> {
    if !("-" <= bytes) then None
    else
      var name := if "--" <= bytes then bytes[2..] else bytes[1..];
      if !NameShaped(name) || !Utf8(NameOf(name)) then None else Some(NameOf(name))
  }
}
