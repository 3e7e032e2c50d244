// The two library helpers the scripts lean on for file names: Node's POSIX `path.extname`
// and the `pathname` of a WHATWG `URL`, the latter in a simplified form.
module Paths {
  import opened Wrappers
  import opened Strings

  /** The position of the last `c` in `s`, or -1. */
  function LastIndexOf(s: string, c: char): (k: int)
    ensures -1 <= k < |s|
    ensures k >= 0 ==> s[k] == c
    ensures forall j :: k < j < |s| ==> s[j] != c
  {
    if s == [] then -1 else if s[|s| - 1] == c then |s| - 1 else LastIndexOf(s[..|s| - 1], c)
  }

  /** `p` without the slashes at its end. */
  function StripTrailingSlashes(p: string): (r: string)
    ensures |r| <= |p| && r == p[..|r|]
    ensures r == [] || r[|r| - 1] != '/'
  {
    if p != [] && p[|p| - 1] == '/' then StripTrailingSlashes(p[..|p| - 1]) else p
  }

  /** The last path segment, trailing slashes ignored (`path.basename`). */
  function Basename(p: string): (b: string)
    ensures '/' !in b
  {
    var q := StripTrailingSlashes(p);
    var k := LastIndexOf(q, '/');
    q[k + 1..]
  }

  /**
   * `path.extname(p)`: from the last `.` of the last segment to its end, or "" when that
   * segment has no `.`, starts with its only relevant `.` (".bashrc"), or is "..".
   */
  function Extname(p: string): (r: string)
    ensures r == [] || (r[0] == '.' && forall i :: 1 <= i < |r| ==> r[i] != '.' && r[i] != '/')
  {
    var b := Basename(p);
    var d := LastIndexOf(b, '.');
    if d <= 0 || b == ".." then "" else b[d..]
  }

  /** The prefix of `s` before the first character in `stop`. */
  function Until(s: string, stop: set<char>): (r: string)
    ensures |r| <= |s| && r == s[..|r|]
    ensures forall i :: 0 <= i < |r| ==> r[i] !in stop
    ensures |r| < |s| ==> s[|r|] in stop
  {
    if s == [] || s[0] in stop then "" else [s[0]] + Until(s[1..], stop)
  }

  predicate IsAsciiLetter(c: char) {
    'a' <= c <= 'z' || 'A' <= c <= 'Z'
  }

  predicate IsSchemeChar(c: char) {
    IsAsciiLetter(c) || IsDigit(c) || c == '+' || c == '-' || c == '.'
  }

  /** A URL scheme: a letter followed by letters, digits, `+`, `-` or `.`. */
  predicate IsScheme(s: string) {
    |s| > 0 && IsAsciiLetter(s[0]) && forall i :: 0 <= i < |s| ==> IsSchemeChar(s[i])
  }

  /**
   * `new URL(url).pathname` for an absolute URL, or None where the constructor throws
   * (no scheme). With `//` after the scheme the authority runs up to the first `/`, `?` or
   * `#`, and the path from there up to the first `?` or `#` ("/" when empty); without it the
   * path is everything after the scheme up to the first `?` or `#`.
   */
  function UrlPathname(url: string): (r: Option<string>)
    ensures r.Some? ==> '?' !in r.value && '#' !in r.value
    ensures r.Some? <==> IsScheme(Until(url, {':'})) && |Until(url, {':'})| < |url|
  {
    var scheme := Until(url, {':'});
    if !IsScheme(scheme) || |scheme| == |url| then None
    else Some(PathAfterScheme(url[|scheme| + 1..]))
  }

  /** The pathname taken from what follows the scheme's colon. */
  function PathAfterScheme(rest: string): (r: string)
    ensures '?' !in r && '#' !in r
  {
    if StartsWith(rest, "//") then
      var authority := Until(rest[2..], {'/', '?', '#'});
      var path := Until(rest[2 + |authority|..], {'?', '#'});
      if path == "" then "/" else path
    else
      Until(rest, {'?', '#'})
  }

  // What the helpers compute on strings of a known shape.

  /** `Until` stops at the first character in `stop`, or at the end. */
  lemma {:induction false} UntilAt(s: string, stop: set<char>, k: nat)
    requires k <= |s|
    requires forall i :: 0 <= i < k ==> s[i] !in stop
    requires k < |s| ==> s[k] in stop
    ensures Until(s, stop) == s[..k]
    decreases k
  {
    if k > 0 {
      UntilAt(s[1..], stop, k - 1);
      assert s[..k] == [s[0]] + s[1..][..k - 1];
    }
  }

  /** The last `c` of `s` is at `k` when `s[k] == c` and no `c` follows it. */
  lemma {:induction false} LastIndexOfAt(s: string, c: char, k: nat)
    requires k < |s| && s[k] == c
    requires forall j :: k < j < |s| ==> s[j] != c
    ensures LastIndexOf(s, c) == k
    decreases |s|
  {
    if k < |s| - 1 {
      LastIndexOfAt(s[..|s| - 1], c, k);
    }
  }

  /** A string without `c` has no last `c`. */
  lemma {:induction false} LastIndexOfNone(s: string, c: char)
    requires c !in s
    ensures LastIndexOf(s, c) == -1
    decreases |s|
  {
    if s != [] {
      assert s == s[..|s| - 1] + [s[|s| - 1]];
      LastIndexOfNone(s[..|s| - 1], c);
    }
  }

  /** A path that ends in something other than a slash has no trailing slashes to strip. */
  lemma NoTrailingSlash(p: string)
    requires p != [] && p[|p| - 1] != '/'
    ensures StripTrailingSlashes(p) == p
  {
  }

  /** The last segment of `d + "/" + name` is `name`, when it is a non-empty name without slashes. */
  lemma BasenameOf(d: string, name: string)
    requires name != [] && '/' !in name
    ensures Basename(d + "/" + name) == name
  {
    var p := d + "/" + name;
    assert p[|p| - 1] == name[|name| - 1];
    NoTrailingSlash(p);
    forall j | |d| < j < |p| ensures p[j] != '/' {
      assert p[j] == name[j - |d| - 1];
    }
    LastIndexOfAt(p, '/', |d|);
    assert p[|d| + 1..] == name;
  }

  /** The extension runs from the last dot of the last segment, when that dot is not its first character. */
  lemma ExtnameAt(p: string, k: nat)
    requires 0 < k && k + 1 < |Basename(p)| && Basename(p)[k] == '.'
    requires forall j :: k < j < |Basename(p)| ==> Basename(p)[j] != '.'
    ensures Extname(p) == Basename(p)[k..]
  {
    LastIndexOfAt(Basename(p), '.', k);
  }

  /** The extension of `d/name`, when the last dot of `name` is at `k`, neither first nor last. */
  lemma ExtnameOfName(d: string, name: string, k: nat)
    requires '/' !in name && 0 < k && k + 1 < |name| && name[k] == '.'
    requires forall j :: k < j < |name| ==> name[j] != '.'
    ensures Extname(d + "/" + name) == name[k..]
  {
    BasenameOf(d, name);
    ExtnameAt(d + "/" + name, k);
  }

  /** Where the dot of `stem.x` is, and what follows it. */
  lemma NameParts(stem: string, x: string)
    requires stem != [] && '/' !in stem && x != [] && '.' !in x && '/' !in x
    ensures var name := stem + "." + x;
      && '/' !in name && |stem| + 1 < |name| && name[|stem|] == '.'
      && (forall j :: |stem| < j < |name| ==> name[j] != '.')
      && name[|stem|..] == "." + x
  {
    var name := stem + "." + x;
    forall j | |stem| < j < |name| ensures name[j] != '.' {
      assert name[j] == x[j - |stem| - 1];
    }
    assert name[|stem|..] == "." + x;
  }

  /** The extension of a file named `stem.x`, `x` free of dots: `.x`. */
  lemma ExtnameOf(d: string, stem: string, x: string)
    requires stem != [] && '/' !in stem
    requires x != [] && '.' !in x && '/' !in x
    ensures Extname(d + "/" + stem + "." + x) == "." + x
  {
    var name := stem + "." + x;
    assert d + "/" + stem + "." + x == d + "/" + name;
    NameParts(stem, x);
    ExtnameOfName(d, name, |stem|);
  }

  /** A dot file `.x`, `x` free of dots, has no extension: its only dot is its first character. */
  lemma ExtnameDotFile(d: string, x: string)
    requires '.' !in x && '/' !in x
    ensures Extname(d + "/." + x) == ""
  {
    var name := "." + x;
    assert d + "/." + x == d + "/" + name;
    BasenameOf(d, name);
    forall j | 0 < j < |name| ensures name[j] != '.' {
      assert name[j] == x[j - 1];
    }
    LastIndexOfAt(name, '.', 0);
  }

  /** A file whose name has no dot has no extension. */
  lemma ExtnameNoDot(d: string, name: string)
    requires name != [] && '/' !in name && '.' !in name
    ensures Extname(d + "/" + name) == ""
  {
    BasenameOf(d, name);
  }

  /** The scheme of `scheme:rest` is `scheme`, whatever follows the colon. */
  lemma SchemeOf(scheme: string, rest: string)
    requires IsScheme(scheme)
    ensures Until(scheme + ":" + rest, {':'}) == scheme
  {
    var url := scheme + ":" + rest;
    forall i | 0 <= i < |scheme| ensures url[i] !in {':'} {
      assert url[i] == scheme[i] && IsSchemeChar(scheme[i]);
    }
    UntilAt(url, {':'}, |scheme|);
    assert url[..|scheme|] == scheme;
  }

  /** The prefix of `a + b` before a stop character, when `a` has none and `b` starts with one or is empty. */
  lemma UntilConcat(a: string, b: string, stop: set<char>)
    requires forall i :: 0 <= i < |a| ==> a[i] !in stop
    requires b == [] || b[0] in stop
    ensures Until(a + b, stop) == a
  {
    UntilAt(a + b, stop, |a|);
    assert (a + b)[..|a|] == a;
  }

  /** What follows `//`: an authority free of `/`, `?` and `#`, then the path, then a query or fragment. */
  lemma PathAfterAuthority(host: string, path: string, q: string)
    requires '/' !in host && '?' !in host && '#' !in host
    requires path != [] && path[0] == '/' && '?' !in path && '#' !in path
    requires q == [] || q[0] == '?' || q[0] == '#'
    ensures PathAfterScheme("//" + host + path + q) == path
  {
    var rest := "//" + host + path + q;
    assert StartsWith(rest, "//");
    var hp := host + (path + q);
    assert rest[2..] == hp;
    UntilConcat(host, path + q, {'/', '?', '#'});
    assert hp[|host|..] == path + q;
    UntilConcat(path, q, {'?', '#'});
  }

  /**
   * The pathname of `scheme://host` followed by a path starting with a slash and then an
   * optional query or fragment: that path.
   */
  lemma UrlPathnameOf(scheme: string, host: string, path: string, q: string)
    requires IsScheme(scheme)
    requires '/' !in host && '?' !in host && '#' !in host
    requires path != [] && path[0] == '/' && '?' !in path && '#' !in path
    requires q == [] || q[0] == '?' || q[0] == '#'
    ensures UrlPathname(scheme + "://" + host + path + q) == Some(path)
  {
    var rest := "//" + host + path + q;
    var url := scheme + ":" + rest;
    assert scheme + "://" + host + path + q == url;
    SchemeOf(scheme, rest);
    assert url[|scheme| + 1..] == rest;
    PathAfterAuthority(host, path, q);
  }

  /** A string without a colon has no scheme, so `new URL` throws. */
  lemma UrlPathnameNoScheme(url: string)
    requires ':' !in url
    ensures UrlPathname(url).None?
  {
    UntilAt(url, {':'}, |url|);
    assert url[..|url|] == url;
  }

  // `xs.join(sep)` over segments that do not themselves contain `sep`.

  /** A character absent from every segment is absent from the joined string, unless it is the separator. */
  lemma {:induction false} JoinAvoids(xs: seq<string>, sep: char, c: char)
    requires c != sep && forall i :: 0 <= i < |xs| ==> c !in xs[i]
    ensures c !in Join(xs, sep)
    decreases |xs|
  {
    if |xs| > 1 {
      JoinAvoids(xs[..|xs| - 1], sep, c);
    }
  }

  /** The separator occurs in the joined string exactly when there are two segments or more. */
  lemma JoinHasSep(xs: seq<string>, sep: char)
    requires forall i :: 0 <= i < |xs| ==> sep !in xs[i]
    ensures sep in Join(xs, sep) <==> |xs| > 1
  {
    if |xs| > 1 {
      var s := Join(xs, sep);
      assert s[|Join(xs[..|xs| - 1], sep)|] == sep;
    }
  }

  /** Splitting at the last separator: what follows it has no separator, so both sides are determined. */
  lemma SplitAtLast(a: string, x: string, b: string, y: string, sep: char)
    requires sep !in x && sep !in y
    requires a + [sep] + x == b + [sep] + y
    ensures a == b && x == y
  {
    var s := a + [sep] + x;
    var k := LastIndexOf(s, sep);
    assert s[|a|] == sep && s[|b|] == sep;
    assert forall j :: |a| < j < |s| ==> s[j] == x[j - |a| - 1];
    assert forall j :: |b| < j < |s| ==> s[j] == y[j - |b| - 1];
    assert k == |a| && k == |b|;
    assert a == s[..|a|] && b == s[..|b|];
    assert x == s[|a| + 1..] && y == s[|b| + 1..];
  }

  /** Joining non-empty lists of separator-free segments is injective. */
  lemma {:induction false} JoinInjective(xs: seq<string>, ys: seq<string>, sep: char)
    requires |xs| > 0 && |ys| > 0
    requires forall i :: 0 <= i < |xs| ==> sep !in xs[i]
    requires forall i :: 0 <= i < |ys| ==> sep !in ys[i]
    ensures Join(xs, sep) == Join(ys, sep) ==> xs == ys
    decreases |xs|
  {
    if Join(xs, sep) == Join(ys, sep) {
      JoinHasSep(xs, sep);
      JoinHasSep(ys, sep);
      if |xs| == 1 {
        assert |ys| == 1;
        assert xs == [xs[0]] && ys == [ys[0]];
      } else {
        var xi, yi := xs[..|xs| - 1], ys[..|ys| - 1];
        SplitAtLast(Join(xi, sep), xs[|xs| - 1], Join(yi, sep), ys[|ys| - 1], sep);
        JoinInjective(xi, yi, sep);
        assert xs == xi + [xs[|xs| - 1]] && ys == yi + [ys[|ys| - 1]];
      }
    }
  }
}
