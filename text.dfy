/** String helpers with Python's meaning: `str.lower` (ASCII letters only),
    `str.startswith`, the `in` test on strings, `str.split(sep)`, `sep.join(xs)`
    and the joining of a directory and a name into a path. */
module Text {

  function LowerChar(c: char): (d: char)
    ensures 'A' <= c <= 'Z' ==> d as int == c as int + 32
    ensures !('A' <= c <= 'Z') ==> d == c
  {
    if 'A' <= c <= 'Z' then (c as int + 32) as char else c
  }

  /** `s.lower()` restricted to ASCII letters. */
  function Lower(s: string): (r: string)
    ensures |r| == |s|
    ensures forall i :: 0 <= i < |s| ==> r[i] == LowerChar(s[i])
  {
    seq(|s|, i requires 0 <= i < |s| => LowerChar(s[i]))
  }

  /** `s.startswith(p)` */
  predicate StartsWith(s: string, p: string) {
    |p| <= |s| && s[..|p|] == p
  }

  /** `p in s` (substring test) */
  predicate Contains(s: string, p: string)
    decreases |s|
  {
    StartsWith(s, p) || (|s| > 0 && Contains(s[1..], p))
  }

  lemma {:induction false} StartsWithContains(s: string, p: string)
    requires StartsWith(s, p)
    ensures Contains(s, p)
  {
  }

  /** A string that starts with p contains p wherever it is appended after. */
  lemma {:induction false} ContainsAfter(a: string, s: string, p: string)
    requires StartsWith(s, p)
    ensures Contains(a + s, p)
    decreases |a|
  {
    if |a| == 0 {
      assert a + s == s;
    } else {
      assert (a + s)[1..] == a[1..] + s;
      ContainsAfter(a[1..], s, p);
    }
  }

  /** `s.split(sep)`: the pieces between separators; never empty, and
      `"".split(sep) == [""]`. */
  function Split(s: string, sep: char): (r: seq<string>)
    ensures |r| >= 1
    decreases |s|
  {
    if |s| == 0 then [""]
    else
      var rest := Split(s[1..], sep);
      if s[0] == sep then [""] + rest
      else [[s[0]] + rest[0]] + rest[1..]
  }

  /** `sep.join(xs)`: `"".join([]) == ""`. */
  function JoinWith(xs: seq<string>, sep: char): (r: string)
    decreases |xs|
  {
    if |xs| == 0 then ""
    else if |xs| == 1 then xs[0]
    else xs[0] + [sep] + JoinWith(xs[1..], sep)
  }

  /** `os.path.join(dir, name)` and `Path(dir) / name` for a relative name. */
  function PathJoin(dir: string, name: string): (p: string)
    ensures |p| == |dir| + 1 + |name|
  {
    dir + ['/'] + name
  }

  /** Joining one directory with two names gives two paths only for two names. */
  lemma PathJoinInjective(dir: string, a: string, b: string)
    requires PathJoin(dir, a) == PathJoin(dir, b)
    ensures a == b
  {
    var n := |dir| + 1;
    assert a == PathJoin(dir, a)[n..];
    assert b == PathJoin(dir, b)[n..];
  }

  /** A string without the separator splits into itself. */
  lemma {:induction false} SplitNoSep(s: string, sep: char)
    requires sep !in s
    ensures Split(s, sep) == [s]
    decreases |s|
  {
    if |s| > 0 {
      assert sep !in s[1..];
      SplitNoSep(s[1..], sep);
      assert [s[0]] + s[1..] == s;
    }
  }

  /** A leading separator starts an empty piece. */
  lemma SplitConsSep(sep: char, t: string)
    ensures Split([sep] + t, sep) == [""] + Split(t, sep)
  {
    assert ([sep] + t)[1..] == t;
  }

  /** Any other leading character joins the first piece. */
  lemma SplitConsOther(c: char, sep: char, t: string)
    requires c != sep
    ensures Split([c] + t, sep) == [[c] + Split(t, sep)[0]] + Split(t, sep)[1..]
  {
    assert ([c] + t)[0] == c && ([c] + t)[1..] == t;
  }

  /** When `u` splits into the pieces of `t` followed by `rest`, a leading
      character other than the separator joins the first piece of both. */
  lemma SplitAppendOther(c: char, sep: char, u: string, t: string, rest: seq<string>)
    requires c != sep && Split(u, sep) == Split(t, sep) + rest
    ensures Split([c] + u, sep) == Split([c] + t, sep) + rest
  {
    var rt := Split(t, sep);
    SplitConsOther(c, sep, u);
    SplitConsOther(c, sep, t);
    assert (rt + rest)[0] == rt[0] && (rt + rest)[1..] == rt[1..] + rest;
  }

  /** The same with a leading separator, which starts an empty piece in both. */
  lemma SplitAppendSep(sep: char, u: string, t: string, rest: seq<string>)
    requires Split(u, sep) == Split(t, sep) + rest
    ensures Split([sep] + u, sep) == Split([sep] + t, sep) + rest
  {
    SplitConsSep(sep, u);
    SplitConsSep(sep, t);
  }

  /** Splitting at one separator splits the two sides independently. */
  lemma {:induction false} SplitAppend(a: string, sep: char, b: string)
    ensures Split(a + [sep] + b, sep) == Split(a, sep) + Split(b, sep)
    decreases |a|
  {
    if |a| == 0 {
      assert a + [sep] + b == [sep] + b;
      SplitConsSep(sep, b);
    } else {
      SplitAppend(a[1..], sep, b);
      if a[0] == sep {
        SplitAppendSep(sep, a[1..] + [sep] + b, a[1..], Split(b, sep));
      } else {
        SplitAppendOther(a[0], sep, a[1..] + [sep] + b, a[1..], Split(b, sep));
      }
      assert a == [a[0]] + a[1..];
      assert a + [sep] + b == [a[0]] + (a[1..] + [sep] + b);
    }
  }

  /** `sep.join` is undone by `split(sep)` when no piece holds the separator. */
  lemma {:induction false} SplitJoin(xs: seq<string>, sep: char)
    requires |xs| >= 1
    requires forall i :: 0 <= i < |xs| ==> sep !in xs[i]
    ensures Split(JoinWith(xs, sep), sep) == xs
    decreases |xs|
  {
    if |xs| == 1 {
      SplitNoSep(xs[0], sep);
    } else {
      SplitAppend(xs[0], sep, JoinWith(xs[1..], sep));
      SplitNoSep(xs[0], sep);
      SplitJoin(xs[1..], sep);
      assert [xs[0]] + xs[1..] == xs;
    }
  }

  /** The components of `PathJoin(dir, name)` are those of `dir` followed by `name`. */
  lemma {:induction false} PathJoinComponents(dir: string, name: string)
    requires '/' !in name
    ensures Split(PathJoin(dir, name), '/') == Split(dir, '/') + [name]
  {
    SplitAppend(dir, '/', name);
    SplitNoSep(name, '/');
  }
}
