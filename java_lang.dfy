/**
 * The slice of the Java platform the call logic relies on: the exceptions it
 * throws and catches, a "returns or throws" result, fixed-width integers, and
 * the three string operations applied to the `Cache-Mode` header
 * (`TextUtils.isEmpty`, `String.trim`, `String.toLowerCase`).
 */
module JavaLang {
  import opened Wrappers

  /** Java's signed `byte`, -128..127; only its value matters to the model. */
  newtype byte = b: int | -0x80 <= b < 0x80

  /** Java's `long`. */
  type Long = x: int | -0x8000_0000_0000_0000 <= x <= 0x7FFF_FFFF_FFFF_FFFF

  /** Java's `byte[]`: its length is an `int`. */
  type ByteArray = s: seq<byte> | |s| <= 0x7FFF_FFFF

  /**
   * The exceptions that reach the call logic. All of them are
   * `java.lang.Exception`s; `IOException` is the only checked one.
   */
  datatype Throwable =
    | IOException(message: string)
    | IllegalStateException(message: string)
    | RuntimeException(message: string)

  /** True of the `RuntimeException` subclasses (what `catch (RuntimeException e)` catches). */
  predicate IsRuntime(e: Throwable) {
    !e.IOException?
  }

  /** The outcome of a Java call: it returns a value or it throws. */
  datatype Try<+T> = Returns(value: T) | Throws(error: Throwable)

  /** `TextUtils.isEmpty`: true of `null` and of the empty string. */
  predicate IsEmpty(s: Option<string>) {
    s.None? || |s.value| == 0
  }

  /** `String.trim` removes every leading and trailing character at or below U+0020. */
  predicate IsTrimmed(c: char) {
    c <= ' '
  }

  /** The leading part of `String.trim`: drops the trimmable prefix. */
  function TrimStart(s: string): (r: string)
    ensures |r| <= |s| && r == s[|s| - |r|..]
    ensures forall i :: 0 <= i < |s| - |r| ==> IsTrimmed(s[i])
    ensures r == [] || !IsTrimmed(r[0])
  {
    if s != [] && IsTrimmed(s[0]) then TrimStart(s[1..]) else s
  }

  /** The trailing part of `String.trim`: drops the trimmable suffix. */
  function TrimEnd(s: string): (r: string)
    ensures |r| <= |s| && r == s[..|r|]
    ensures forall i :: |r| <= i < |s| ==> IsTrimmed(s[i])
    ensures r == [] || !IsTrimmed(r[|r| - 1])
  {
    if s != [] && IsTrimmed(s[|s| - 1]) then TrimEnd(s[..|s| - 1]) else s
  }

  /** The number of trimmable characters `String.trim` drops from the front of `s`. */
  function LeadingBlanks(s: string): (k: nat)
    ensures k <= |s|
    ensures forall i :: 0 <= i < k ==> IsTrimmed(s[i])
    ensures k == |s| || !IsTrimmed(s[k])
  {
    |s| - |TrimStart(s)|
  }

  /**
   * `String.trim`: the result is the piece of `s` that starts after its
   * leading trimmable characters, everything cut off behind it is trimmable,
   * and the result neither starts nor ends with a trimmable character.
   */
  function Trim(s: string): (r: string)
    ensures LeadingBlanks(s) + |r| <= |s|
    ensures r == s[LeadingBlanks(s)..LeadingBlanks(s) + |r|]
    ensures forall i :: LeadingBlanks(s) + |r| <= i < |s| ==> IsTrimmed(s[i])
    ensures r == [] || (!IsTrimmed(r[0]) && !IsTrimmed(r[|r| - 1]))
  {
    TrimEnd(TrimStart(s))
  }

  /**
   * `Character.toLowerCase` restricted to the characters whose lower-case
   * form is ASCII: the letters A-Z and U+212A KELVIN SIGN, which Java lowers
   * to 'k'. Every other character is left as it is.
   */
  function ToLowerChar(c: char): char {
    if 'A' <= c <= 'Z' then (c as int + 32) as char
    else if c == '\U{212A}' then 'k'
    else c
  }

  /** `String.toLowerCase`, character by character. */
  function ToLower(s: string): (r: string)
    ensures |r| == |s|
    ensures forall i :: 0 <= i < |s| ==> r[i] == ToLowerChar(s[i])
  {
    if s == [] then [] else [ToLowerChar(s[0])] + ToLower(s[1..])
  }

  /** The upper-case spelling of ASCII text: a-z become A-Z, everything else stays. */
  function UpperCase(s: string): (r: string)
    ensures |r| == |s|
    ensures forall i :: 0 <= i < |s| ==>
              r[i] == if 'a' <= s[i] <= 'z' then (s[i] as int - 32) as char else s[i]
  {
    if s == [] then [] else [if 'a' <= s[0] <= 'z' then (s[0] as int - 32) as char else s[0]] + UpperCase(s[1..])
  }

  /** Lower-casing undoes upper-casing on text without upper-case letters. */
  lemma ToLowerUndoesUpperCase(s: string)
    requires forall i :: 0 <= i < |s| ==> !('A' <= s[i] <= 'Z') && s[i] != '\U{212A}'
    ensures ToLower(UpperCase(s)) == s
  {
    var u := UpperCase(s);
    var r := ToLower(u);
    forall i | 0 <= i < |s| ensures r[i] == s[i] {
      var c := s[i];
      if 'a' <= c <= 'z' {
        assert u[i] as int == c as int - 32;
        assert 'A' <= u[i] <= 'Z';
      } else {
        assert u[i] == c;
      }
    }
  }

  /** `s.trim().toLowerCase(...)`, the normalisation `execute` applies to the header. */
  function Normalize(s: string): string {
    ToLower(Trim(s))
  }

  /**
   * Padding a non-blank string with trimmable characters on both sides is
   * exactly what `String.trim` undoes.
   */
  lemma {:induction false} TrimPadded(pre: string, v: string, post: string)
    requires forall i :: 0 <= i < |pre| ==> IsTrimmed(pre[i])
    requires forall i :: 0 <= i < |post| ==> IsTrimmed(post[i])
    requires v != [] && !IsTrimmed(v[0]) && !IsTrimmed(v[|v| - 1])
    ensures Trim(pre + v + post) == v
  {
    assert pre + v + post == pre + (v + post);
    TrimStartPadded(pre, v + post);
    TrimEndPadded(v, post);
  }

  lemma {:induction false} TrimStartPadded(pre: string, rest: string)
    requires forall i :: 0 <= i < |pre| ==> IsTrimmed(pre[i])
    requires rest != [] && !IsTrimmed(rest[0])
    ensures TrimStart(pre + rest) == rest
  {
    if pre != [] {
      assert (pre + rest)[1..] == pre[1..] + rest;
      TrimStartPadded(pre[1..], rest);
    } else {
      assert pre + rest == rest;
    }
  }

  lemma {:induction false} TrimEndPadded(v: string, post: string)
    requires forall i :: 0 <= i < |post| ==> IsTrimmed(post[i])
    requires v != [] && !IsTrimmed(v[|v| - 1])
    ensures TrimEnd(v + post) == v
  {
    if post != [] {
      var n := |post| - 1;
      assert (v + post)[..|v + post| - 1] == v + post[..n];
      TrimEndPadded(v, post[..n]);
    } else {
      assert v + post == v;
    }
  }

  /** Lower-casing works piece by piece: it distributes over concatenation. */
  lemma ToLowerAppend(a: string, b: string)
    ensures ToLower(a + b) == ToLower(a) + ToLower(b)
  {
  }

  /** A string none of whose characters `toLowerCase` changes is its own lower-case form. */
  lemma ToLowerFixed(s: string)
    requires forall i :: 0 <= i < |s| ==> ToLowerChar(s[i]) == s[i]
    ensures ToLower(s) == s
  {
  }
}
