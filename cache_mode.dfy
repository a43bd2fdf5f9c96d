/**
 * The four values of the `Cache-Mode` request header and the `switch`
 * labels that select a mode from the header's text.
 */
module CacheMode {
  import opened Wrappers
  import opened JavaLang

  /** The cache modes; one per string constant. */
  datatype Mode = LoadDefault | CacheElseNetwork | NetworkElseCache | NetworkOnly

  /** The string constant that names each mode in the header. */
  function Directive(m: Mode): string {
    match m
    case LoadDefault => "load-default"
    case CacheElseNetwork => "cache-else-network"
    case NetworkElseCache => "network-else-cache"
    case NetworkOnly => "network-only"
  }

  /**
   * The `case` labels of the `switch` on the header text: a string selects
   * the mode whose constant it equals, and no mode when it equals none.
   */
  function Lookup(s: string): (r: Option<Mode>)
    ensures forall m {:trigger Directive(m)} :: r == Some(m) <==> s == Directive(m)
  {
    DirectivesDistinct();
    if s == Directive(LoadDefault) then Some(LoadDefault)
    else if s == Directive(CacheElseNetwork) then Some(CacheElseNetwork)
    else if s == Directive(NetworkElseCache) then Some(NetworkElseCache)
    else if s == Directive(NetworkOnly) then Some(NetworkOnly)
    else None
  }

  /** The characters the four constants are written with. */
  predicate IsDirectiveChar(c: char) {
    c == '-' || 'a' <= c <= 'z'
  }

  /** Each constant starts with a lower-case ASCII letter and goes on with such letters and hyphens. */
  lemma DirectiveChars(m: Mode)
    ensures |Directive(m)| > 0 && 'a' <= Directive(m)[0] <= 'z'
    ensures forall i :: 0 <= i < |Directive(m)| ==> IsDirectiveChar(Directive(m)[i])
  {
    var s := Directive(m);
    forall i | 0 <= i < |s| ensures IsDirectiveChar(s[i]) {
      match m
      case LoadDefault =>
        assert s == ['l', 'o', 'a', 'd', '-', 'd', 'e', 'f', 'a', 'u', 'l', 't'];
      case CacheElseNetwork =>
        assert s == ['c', 'a', 'c', 'h', 'e', '-', 'e', 'l', 's', 'e', '-', 'n', 'e', 't', 'w', 'o', 'r', 'k'];
      case NetworkElseCache =>
        assert s == ['n', 'e', 't', 'w', 'o', 'r', 'k', '-', 'e', 'l', 's', 'e', '-', 'c', 'a', 'c', 'h', 'e'];
      case NetworkOnly =>
        assert s == ['n', 'e', 't', 'w', 'o', 'r', 'k', '-', 'o', 'n', 'l', 'y'];
    }
  }

  /** The four constants are pairwise distinct, so each label selects exactly one mode. */
  lemma DirectivesDistinct()
    ensures forall m1, m2 :: Directive(m1) == Directive(m2) ==> m1 == m2
  {
  }

  /** Each constant is non-empty, so it passes the `TextUtils.isEmpty` guard. */
  lemma DirectiveNonEmpty(m: Mode)
    ensures !IsEmpty(Some(Directive(m)))
    ensures |Directive(m)| > 0
  {
  }

  /** Each constant is its own trimmed, lower-cased form. */
  lemma DirectiveNormalized(m: Mode)
    ensures Normalize(Directive(m)) == Directive(m)
  {
    var s := Directive(m);
    DirectiveChars(m);
    forall i | 0 <= i < |s| ensures ToLowerChar(s[i]) == s[i] && !IsTrimmed(s[i]) {
      DirectiveCharFixed(s[i]);
    }
    TrimPadded([], s, []);
    assert [] + s + [] == s;
    ToLowerFixed(s);
  }

  /** A character of a constant survives both `trim` and `toLowerCase`. */
  lemma DirectiveCharFixed(c: char)
    requires IsDirectiveChar(c)
    ensures ToLowerChar(c) == c && !IsTrimmed(c)
  {
  }

  /**
   * Any case variant of a constant, padded on either side with characters
   * `String.trim` removes, normalises onto that constant and so selects its
   * mode.
   */
  lemma NormalizeSelects(m: Mode, pre: string, v: string, post: string)
    requires forall i :: 0 <= i < |pre| ==> IsTrimmed(pre[i])
    requires forall i :: 0 <= i < |post| ==> IsTrimmed(post[i])
    requires ToLower(v) == Directive(m)
    ensures Normalize(pre + v + post) == Directive(m)
    ensures Lookup(Normalize(pre + v + post)) == Some(m)
  {
    var d := Directive(m);
    DirectiveChars(m);
    assert |v| == |d| > 0;
    assert ToLowerChar(v[0]) == d[0] && IsDirectiveChar(d[0]);
    assert ToLowerChar(v[|v| - 1]) == d[|d| - 1] && IsDirectiveChar(d[|d| - 1]);
    TrimPadded(pre, v, post);
  }
}
