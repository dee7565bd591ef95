/**
 An approximation of the e-mail address shape that a zod string schema's
 `.email(...)` check accepts: `local@host.tld`.

 - the local part is non-empty, built from letters, digits and `_ ' + - .`,
   does not start with a dot, does not end with a dot or `'` and has no two
   dots in a row;
 - the host is one or more dot-separated labels of letters, digits and `-`,
   each label starting with a letter or a digit;
 - the top-level domain, after the last dot, is two or more letters.
 */
module EmailShape {
  import opened Wrappers

  predicate IsLetter(c: char) { 'a' <= c <= 'z' || 'A' <= c <= 'Z' }

  predicate IsDigit(c: char) { '0' <= c <= '9' }

  predicate IsAlnum(c: char) { IsLetter(c) || IsDigit(c) }

  /** Position of the first occurrence of `c` in `s`, if any. */
  function IndexOf(s: string, c: char): (r: Option<nat>)
    ensures r.None? <==> c !in s
    ensures r.Some? ==> r.value < |s| && s[r.value] == c && c !in s[..r.value]
  {
    if s == [] then None
    else if s[0] == c then Some(0)
    else
      assert s == [s[0]] + s[1..];
      match IndexOf(s[1..], c)
      case None => None
      case Some(i) =>
        assert s[..i + 1] == [s[0]] + s[1..][..i];
        Some(i + 1)
  }

  /** Position of the last occurrence of `c` in `s`, if any. */
  function LastIndexOf(s: string, c: char): (r: Option<nat>)
    ensures r.None? <==> c !in s
    ensures r.Some? ==> r.value < |s| && s[r.value] == c && c !in s[r.value + 1..]
  {
    if s == [] then None
    else if s[|s| - 1] == c then Some(|s| - 1)
    else
      assert s == s[..|s| - 1] + [s[|s| - 1]];
      match LastIndexOf(s[..|s| - 1], c)
      case None => None
      case Some(k) =>
        assert s[k + 1..] == s[..|s| - 1][k + 1..] + [s[|s| - 1]];
        Some(k)
  }

  predicate IsLocalChar(c: char) {
    IsAlnum(c) || c == '_' || c == '\'' || c == '+' || c == '-' || c == '.'
  }

  predicate IsLabelChar(c: char) { IsAlnum(c) || c == '-' }

  /** Local characters, not starting with a dot and ending in neither a dot nor `'`. */
  predicate IsLocalPart(s: string) {
    && |s| > 0
    && s[0] != '.'
    && s[|s| - 1] != '.'
    && s[|s| - 1] != '\''
    && (forall i :: 0 <= i < |s| ==> IsLocalChar(s[i]))
    && (forall i :: 0 <= i < |s| - 1 ==> !(s[i] == '.' && s[i + 1] == '.'))
  }

  /** One or more dot-separated labels; every label starts with a letter or a digit. */
  predicate IsHost(s: string) {
    && |s| > 0
    && IsAlnum(s[0])
    && s[|s| - 1] != '.'
    && (forall i :: 0 <= i < |s| ==> IsLabelChar(s[i]) || s[i] == '.')
    && (forall i :: 0 <= i < |s| - 1 ==> s[i] == '.' ==> IsAlnum(s[i + 1]))
  }

  predicate IsTld(s: string) {
    |s| >= 2 && forall i :: 0 <= i < |s| ==> IsLetter(s[i])
  }

  /** `host.tld`, split at the last dot. */
  predicate IsDomain(d: string)
    ensures IsDomain(d) ==> |d| >= 4
  {
    match LastIndexOf(d, '.')
    case None => false
    case Some(k) => IsHost(d[..k]) && IsTld(d[k + 1..])
  }

  /**
   `local@domain`, split at the first `@`. Every e-mail shaped string holds an
   `@` and at least six characters (`a@b.cc`).
   */
  predicate IsEmailShape(s: string)
    ensures IsEmailShape(s) ==> '@' in s && |s| >= 6
  {
    match IndexOf(s, '@')
    case None => false
    case Some(i) => IsLocalPart(s[..i]) && IsDomain(s[i + 1..])
  }

  /** In `p + [c] + q` with no `c` in `p`, the first `c` is the one after `p`. */
  lemma {:induction false} IndexOfFirst(p: string, c: char, q: string)
    requires c !in p
    ensures IndexOf(p + [c] + q, c) == Some(|p|)
  {
    if p != [] {
      var s := p + [c] + q;
      assert s[0] == p[0] && s[1..] == p[1..] + [c] + q;
      IndexOfFirst(p[1..], c, q);
    }
  }

  /** In `p + [c] + q` with no `c` in `q`, the last `c` is the one after `p`. */
  lemma {:induction false} LastIndexOfLast(p: string, c: char, q: string)
    requires c !in q
    ensures LastIndexOf(p + [c] + q, c) == Some(|p|)
  {
    var s := p + [c] + q;
    if q != [] {
      var init := q[..|q| - 1];
      assert s[|s| - 1] == q[|q| - 1];
      assert s[..|s| - 1] == p + [c] + init;
      assert c !in init by {
        assert forall x :: x in init ==> x in q;
      }
      LastIndexOfLast(p, c, init);
    } else {
      assert s[|s| - 1] == c;
    }
  }

  /**
   A string written as `l@h.t`, where `l` has no `@` and `t` no dot, is
   e-mail shaped exactly when `l` is a local part, `h` a host and `t` a
   top-level domain.
   */
  lemma ShapeSplit(l: string, h: string, t: string)
    requires '@' !in l && '.' !in t
    ensures IsEmailShape(l + ['@'] + h + ['.'] + t)
        <==> IsLocalPart(l) && IsHost(h) && IsTld(t)
  {
    var d := h + ['.'] + t;
    assert l + ['@'] + h + ['.'] + t == l + ['@'] + d;
    AtSplit(l, d);
    DotSplit(h, t);
  }

  /** `l@d` with no `@` in `l` is split right after `l`. */
  lemma AtSplit(l: string, d: string)
    requires '@' !in l
    ensures IsEmailShape(l + ['@'] + d) <==> IsLocalPart(l) && IsDomain(d)
  {
    var s := l + ['@'] + d;
    IndexOfFirst(l, '@', d);
    assert s[..|l|] == l;
    assert s[|l| + 1..] == d;
  }

  /** `h.t` with no dot in `t` is split right after `h`. */
  lemma DotSplit(h: string, t: string)
    requires '.' !in t
    ensures IsDomain(h + ['.'] + t) <==> IsHost(h) && IsTld(t)
  {
    var d := h + ['.'] + t;
    LastIndexOfLast(h, '.', t);
    assert d[..|h|] == h;
    assert d[|h| + 1..] == t;
  }

  lemma ExampleParts()
    ensures IsLocalPart("user") && IsHost("example") && IsTld("com")
  {
  }

  lemma ExampleSplit()
    ensures IsEmailShape("user" + ['@'] + "example" + ['.'] + "com")
  {
    ExampleParts();
    ShapeSplit("user", "example", "com");
  }

  lemma ExampleText()
    ensures "user" + ['@'] + "example" + ['.'] + "com" == "user@example.com"
  {
  }

  lemma AcceptsUserAtExampleCom()
    ensures IsEmailShape("user@example.com")
  {
    ExampleSplit();
    ExampleText();
  }

  /** A local part may hold `'`, but may not end in it. */
  lemma RejectsTrailingApostrophe()
    ensures !IsEmailShape("a'@example.com")
  {
    ShapeSplit("a'", "example", "com");
    assert "a'" + ['@'] + "example" + ['.'] + "com" == "a'@example.com";
  }

  lemma RejectsNotAnEmail()
    ensures !IsEmailShape("not-an-email")
  {
    var s := "not-an-email";
    assert forall i :: 0 <= i < |s| ==> s[i] != '@';
  }
}
