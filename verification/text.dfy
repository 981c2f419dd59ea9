/** The few Python string and POSIX path operations that main.py applies to
    file names: `str.lower`, `str.endswith`, `str.startswith`,
    `str.split(sep)[0]`, `str.strip()`, `os.path.join` and
    `os.path.basename`. */
module Text {

  /** `c.isspace()` in Python: the characters that `str.strip()` removes
      when it is given no argument. */
  predicate IsSpace(c: char) {
    || ('\t' <= c && c <= '\r')
    || ('\U{1C}' <= c && c <= '\U{1F}')
    || c == ' ' || c == '\U{85}' || c == '\U{A0}' || c == '\U{1680}'
    || ('\U{2000}' <= c && c <= '\U{200A}')
    || c == '\U{2028}' || c == '\U{2029}' || c == '\U{202F}' || c == '\U{205F}' || c == '\U{3000}'
  }

  predicate AllSpace(s: string) {
    forall k :: 0 <= k < |s| ==> IsSpace(s[k])
  }

  /** Lower-casing of one character, for the ASCII capitals and the Kelvin
      sign (U+212A), whose lower case is the ASCII `k`. */
  function Lower(c: char): char {
    if 'A' <= c && c <= 'Z' then (c as int + 32) as char
    else if c == '\U{212A}' then 'k'
    else c
  }

  function LowerStr(s: string): string {
    seq(|s|, i requires 0 <= i < |s| => Lower(s[i]))
  }

  predicate EndsWith(s: string, suffix: string) {
    |suffix| <= |s| && s[|s| - |suffix|..] == suffix
  }

  predicate StartsWith(s: string, prefix: string) {
    |prefix| <= |s| && s[..|prefix|] == prefix
  }

  /** `s.split(sep)[0]`: the text before the first `sep`, or all of `s`
      when `sep` does not occur in it. */
  function BeforeFirst(s: string, sep: char): (r: string)
    ensures |r| <= |s|
  {
    if s == [] || s[0] == sep then [] else [s[0]] + BeforeFirst(s[1..], sep)
  }

  /** `BeforeFirst` gives the longest start of `s` free of `sep`: a start of
      `s`, without `sep`, followed in `s` by `sep` unless it is all of `s`. */
  lemma {:induction false} BeforeFirstShape(s: string, sep: char)
    ensures var r := BeforeFirst(s, sep);
      && r == s[..|r|]
      && sep !in r
      && (|r| < |s| ==> s[|r|] == sep)
  {
    if s != [] && s[0] != sep {
      var rest := BeforeFirst(s[1..], sep);
      BeforeFirstShape(s[1..], sep);
      assert s[..|rest| + 1] == [s[0]] + s[1..][..|rest|];
    }
  }

  /** `s.lstrip()`: `s` without its leading whitespace. */
  function TrimStart(s: string): (r: string)
    ensures |r| <= |s|
  {
    if s != [] && IsSpace(s[0]) then TrimStart(s[1..]) else s
  }

  /** `s.rstrip()`: `s` without its trailing whitespace. */
  function TrimEnd(s: string): (r: string)
    ensures |r| <= |s|
  {
    if s != [] && IsSpace(s[|s| - 1]) then TrimEnd(s[..|s| - 1]) else s
  }

  /** `s.strip()`: `s` without its leading and trailing whitespace. */
  function Strip(s: string): string {
    TrimEnd(TrimStart(s))
  }

  /** `TrimStart` removes a run of whitespace and stops at the first other
      character. */
  lemma {:induction false} TrimStartShape(s: string)
    ensures var r := TrimStart(s);
      && r == s[|s| - |r|..]
      && AllSpace(s[..|s| - |r|])
      && (r == [] || !IsSpace(r[0]))
  {
    if s != [] && IsSpace(s[0]) {
      var r := TrimStart(s[1..]);
      TrimStartShape(s[1..]);
      assert s[1..][|s| - 1 - |r|..] == s[|s| - |r|..];
      assert s[..|s| - |r|] == [s[0]] + s[1..][..|s| - 1 - |r|];
    }
  }

  /** `TrimEnd` removes a run of whitespace and stops at the last other
      character. */
  lemma {:induction false} TrimEndShape(s: string)
    ensures var r := TrimEnd(s);
      && r == s[..|r|]
      && AllSpace(s[|r|..])
      && (r == [] || !IsSpace(r[|r| - 1]))
  {
    if s != [] && IsSpace(s[|s| - 1]) {
      var init := s[..|s| - 1];
      var r := TrimEnd(init);
      TrimEndShape(init);
      assert init[..|r|] == s[..|r|];
      assert s[|r|..] == init[|r|..] + [s[|s| - 1]];
    }
  }

  /** The result of `Strip` is a slice of `s` that neither starts nor ends
      with whitespace, and only whitespace lies around it. */
  lemma StripShape(s: string)
    ensures var r := Strip(s);
      && (r == [] || (!IsSpace(r[0]) && !IsSpace(r[|r| - 1])))
      && exists i :: 0 <= i <= |s| - |r| && r == s[i..i + |r|]
                     && AllSpace(s[..i]) && AllSpace(s[i + |r|..])
  {
    var t := TrimStart(s);
    var r := TrimEnd(t);
    TrimStartShape(s);
    TrimEndShape(t);
    var i := |s| - |t|;
    assert r == s[i..i + |r|];
    assert s[i + |r|..] == t[|r|..];
    assert r != [] ==> r[0] == t[0];
  }

  /** Every character of a slice of `s` is a character of `s`. */
  lemma SliceChars(s: string, r: string, i: nat)
    requires i + |r| <= |s| && r == s[i..i + |r|]
    ensures forall c :: c in r ==> c in s
  {
    forall c | c in r ensures c in s {
      var k :| 0 <= k < |r| && r[k] == c;
      assert s[i + k] == c;
    }
  }

  /** `os.path.join(a, b)` on POSIX: an absolute `b` replaces `a`; otherwise
      `b` is appended after a separator unless `a` is empty or already ends
      with one. */
  function Join(a: string, b: string): string {
    if |b| > 0 && b[0] == '/' then b
    else if a == [] || a[|a| - 1] == '/' then a + b
    else a + "/" + b
  }

  /** `os.path.basename(p)`: the text after the last `/`. */
  function BaseName(p: string): string {
    if p == [] || p[|p| - 1] == '/' then []
    else BaseName(p[..|p| - 1]) + [p[|p| - 1]]
  }

  lemma {:induction false} BaseNameAfterSeparator(head: string, name: string)
    requires head == [] || head[|head| - 1] == '/'
    requires '/' !in name
    ensures BaseName(head + name) == name
  {
    if name != [] {
      var init := name[..|name| - 1];
      assert (head + name)[..|head + name| - 1] == head + init;
      BaseNameAfterSeparator(head, init);
      assert name == init + [name[|name| - 1]];
    } else {
      assert head + name == head;
    }
  }

  /** A path built with `Join(folder, name)` keeps `name` as its base name,
      whatever the folder, when `name` is a single path component. */
  lemma JoinKeepsBaseName(folder: string, name: string)
    requires '/' !in name
    ensures BaseName(Join(folder, name)) == name
  {
    if folder == [] || folder[|folder| - 1] == '/' {
      BaseNameAfterSeparator(folder, name);
    } else {
      BaseNameAfterSeparator(folder + "/", name);
      assert folder + "/" + name == (folder + "/") + name;
    }
  }

  /** Joining single components onto the same folder gives the same path
      string exactly when the components are equal. */
  lemma JoinSameComponent(folder: string, a: string, b: string)
    requires '/' !in a && '/' !in b
    ensures Join(folder, a) == Join(folder, b) <==> a == b
  {
    assert a != [] ==> a[0] in a;
    assert b != [] ==> b[0] in b;
    var head := if folder == [] || folder[|folder| - 1] == '/' then folder else folder + "/";
    assert Join(folder, a) == head + a && Join(folder, b) == head + b;
    if head + a == head + b {
      assert a == (head + a)[|head|..] && b == (head + b)[|head|..];
    }
  }

  /** Joining the empty component adds at most a separator, so the file
      path built from it is the file's own path under `folder`. */
  lemma EmptyJoinStaysPut(folder: string, name: string)
    requires '/' !in name
    ensures Join(Join(folder, ""), name) == Join(folder, name)
  {
    assert name != [] ==> name[0] in name;
  }
}
