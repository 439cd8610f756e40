/**
 * The parts of Python's `posixpath` and `str` that the converter relies on:
 * `str.rfind`, `basename`, `splitext`, `join` and `str.lower`, with '/' as
 * the only separator. The functions are kept free of postconditions; what
 * they compute is stated by the lemmas beside them.
 */
module Paths {
  const Sep: char := '/'
  const ExtSep: char := '.'

  /** `str.rfind` for one character: the last index holding `c`, or -1 when there is none. */
  function RFind(s: string, c: char): (i: int)
    ensures -1 <= i < |s|
  {
    if s == [] then -1
    else if s[|s| - 1] == c then |s| - 1
    else RFind(s[..|s| - 1], c)
  }

  /** RFind returns the last occurrence: `c` sits there and nowhere after it. */
  lemma {:induction false} RFindSpec(s: string, c: char)
    ensures 0 <= RFind(s, c) ==> s[RFind(s, c)] == c
    ensures forall k :: RFind(s, c) < k < |s| ==> s[k] != c
  {
    if s != [] && s[|s| - 1] != c {
      RFindSpec(s[..|s| - 1], c);
    }
  }

  /** Those three properties determine RFind's result. */
  lemma RFindIs(s: string, c: char, j: int)
    requires -1 <= j < |s|
    requires 0 <= j ==> s[j] == c
    requires forall k :: j < k < |s| ==> s[k] != c
    ensures RFind(s, c) == j
  {
    RFindSpec(s, c);
  }

  /** `posixpath.basename`: everything after the last separator. */
  function Basename(p: string): string {
    p[RFind(p, Sep) + 1..]
  }

  /** The base name is the longest suffix of `p` that holds no separator. */
  lemma BasenameSpec(p: string)
    ensures Sep !in Basename(p)
    ensures |Basename(p)| <= |p| && p[|p| - |Basename(p)|..] == Basename(p)
    ensures |Basename(p)| < |p| ==> p[|p| - |Basename(p)| - 1] == Sep
  {
    RFindSpec(p, Sep);
    var i := RFind(p, Sep) + 1;
    assert forall k :: 0 <= k < |p[i..]| ==> p[i..][k] == p[i + k];
  }

  lemma BasenameOfPlainName(s: string)
    requires Sep !in s
    ensures Basename(s) == s
  {
    RFindIs(s, Sep, -1);
  }

  /** True when some character of `s` is not a dot. */
  predicate HasNonDot(s: string) {
    exists k :: 0 <= k < |s| && s[k] != ExtSep
  }

  /** A dot followed by characters that are neither dots nor separators. */
  ghost predicate IsExtension(e: string) {
    |e| >= 1 && e[0] == ExtSep && forall k :: 1 <= k < |e| ==> e[k] != ExtSep && e[k] != Sep
  }

  /**
   * `p` splits into `root` and a non-empty extension `ext` the way
   * `splitext` means it: `ext` is a final dotted suffix, and the last path
   * component of `root` is not made of dots only (leading dots of a base
   * name do not start an extension).
   */
  ghost predicate ExtensionSplit(p: string, root: string, ext: string) {
    root + ext == p && IsExtension(ext) && HasNonDot(Basename(root))
  }

  /**
   * `posixpath.splitext` (the generic `_splitext` with '/' and '.'): the
   * extension starts at the last dot after the last separator, provided a
   * non-dot character precedes that dot within the last component.
   */
  function Splitext(p: string): (string, string) {
    var sepIndex := RFind(p, Sep);
    var dotIndex := RFind(p, ExtSep);
    if dotIndex > sepIndex && HasNonDot(p[sepIndex + 1..dotIndex]) then
      (p[..dotIndex], p[dotIndex..])
    else
      (p, "")
  }

  /** The name without its last extension (`splitext(p)[0]`). */
  function Stem(p: string): string {
    Splitext(p).0
  }

  /** Splitting loses nothing: root and extension put back together give the path. */
  lemma SplitextJoins(p: string)
    ensures Splitext(p).0 + Splitext(p).1 == p
  {
    RFindSpec(p, Sep);
    RFindSpec(p, ExtSep);
  }

  /** Splitext finds an extension exactly when `p` has an extension split, and then returns that split. */
  lemma SplitextSpec(p: string, root: string, ext: string)
    ensures ExtensionSplit(p, root, ext) <==> ext != "" && Splitext(p) == (root, ext)
  {
    if ExtensionSplit(p, root, ext) {
      SplitextComplete(p, root, ext);
    }
    if ext != "" && Splitext(p) == (root, ext) {
      SplitextSound(p);
    }
  }

  lemma SplitextSound(p: string)
    requires Splitext(p).1 != ""
    ensures ExtensionSplit(p, Splitext(p).0, Splitext(p).1)
  {
    var sepIndex := RFind(p, Sep);
    var dotIndex := RFind(p, ExtSep);
    assert dotIndex > sepIndex && HasNonDot(p[sepIndex + 1..dotIndex]);
    assert Splitext(p) == (p[..dotIndex], p[dotIndex..]);
    TailFromLastDot(p);
    BasenameOfPrefix(p, dotIndex);
    assert p[..dotIndex] + p[dotIndex..] == p;
  }

  /** What follows the last dot holds no dot, and no separator when the dot comes after the last separator. */
  lemma TailFromLastDot(p: string)
    requires RFind(p, ExtSep) > RFind(p, Sep)
    ensures IsExtension(p[RFind(p, ExtSep)..])
  {
    RFindSpec(p, ExtSep);
    RFindSpec(p, Sep);
    var d := RFind(p, ExtSep);
    var ext := p[d..];
    forall k | 1 <= k < |ext| ensures ext[k] != ExtSep && ext[k] != Sep {
      assert ext[k] == p[d + k];
    }
  }

  /** Cutting `p` after its last separator leaves the same last component start. */
  lemma BasenameOfPrefix(p: string, n: nat)
    requires RFind(p, Sep) < n <= |p|
    ensures Basename(p[..n]) == p[RFind(p, Sep) + 1..n]
  {
    var j := RFind(p, Sep);
    var q := p[..n];
    RFindOfPrefix(p, Sep, n);
    assert Basename(q) == q[j + 1..];
    var tail, cut := q[j + 1..], p[j + 1..n];
    forall i | 0 <= i < |tail| ensures tail[i] == cut[i] {
      assert q[j + 1 + i] == p[j + 1 + i];
    }
    assert tail == cut;
  }

  /** A prefix that still holds the last occurrence has it at the same place. */
  lemma {:induction false} RFindOfPrefix(p: string, c: char, n: nat)
    requires RFind(p, c) < n <= |p|
    ensures RFind(p[..n], c) == RFind(p, c)
    decreases |p| - n
  {
    if n < |p| {
      var q := p[..|p| - 1];
      assert q[..n] == p[..n];
      RFindOfPrefix(q, c, n);
    } else {
      assert p[..n] == p;
    }
  }

  lemma SplitextComplete(p: string, root: string, ext: string)
    requires ExtensionSplit(p, root, ext)
    ensures Splitext(p) == (root, ext)
  {
    var n := |root|;
    forall k | n < k < |p| ensures p[k] != ExtSep && p[k] != Sep {
      assert p[k] == ext[k - n];
    }
    assert p[n] == ext[0];
    RFindIs(p, ExtSep, n);
    RFindSpec(root, Sep);
    var j := RFind(root, Sep);
    forall k | j < k < |p| ensures p[k] != Sep {
      if k < n { assert p[k] == root[k]; } else { assert p[k] == ext[k - n]; }
    }
    assert 0 <= j ==> p[j] == root[j];
    RFindIs(p, Sep, j);
    assert p[j + 1..n] == root[j + 1..];
    assert p[..n] == root && p[n..] == ext;
  }

  /** `posixpath.join` of two components. */
  function Join(a: string, b: string): string {
    if |b| > 0 && b[0] == Sep then b
    else if a == "" || a[|a| - 1] == Sep then a + b
    else a + [Sep] + b
  }

  /**
   * Joining a name that holds no separator keeps the folder as a prefix,
   * adds a separator exactly when the folder is non-empty and does not
   * already end in one, and puts the name last, so that the base
   * name of the result is the name.
   */
  lemma JoinSpec(a: string, b: string)
    requires Sep !in b
    ensures a <= Join(a, b)
    ensures Join(a, b) == a + b || Join(a, b) == a + [Sep] + b
    ensures Join(a, b) == a + b <==> a == "" || a[|a| - 1] == Sep
    ensures Basename(Join(a, b)) == b
  {
    assert b != [] ==> b[0] in b;
    if a == "" {
      assert Join(a, b) == b;
      BasenameOfPlainName(b);
    } else if a[|a| - 1] == Sep {
      BasenameAfterSep(a, b);
    } else {
      BasenameAfterSep(a + [Sep], b);
      assert a + [Sep] + b == (a + [Sep]) + b;
    }
  }

  /** A name that holds no separator, written after a separator, is the base name. */
  lemma BasenameAfterSep(d: string, b: string)
    requires |d| > 0 && d[|d| - 1] == Sep && Sep !in b
    ensures Basename(d + b) == b
  {
    var r := d + b;
    forall k | |d| - 1 < k < |r| ensures r[k] != Sep {
      assert r[k] == b[k - |d|];
    }
    RFindIs(r, Sep, |d| - 1);
    assert r[|d|..] == b;
  }

  /** One character of `str.lower` on the ASCII range. */
  function LowerChar(c: char): char {
    if 'A' <= c <= 'Z' then (c as int + 32) as char else c
  }

  /** `str.lower`, restricted to ASCII letters. */
  function Lower(s: string): string {
    seq(|s|, i requires 0 <= i < |s| => LowerChar(s[i]))
  }
}
