/** The three `os.path` functions (POSIX flavour) the command modules use on
    file names: `basename`, `splitext` and `join`. */
module PyPath {
  import opened PyText

  /** `s.rfind(c)`: the last index holding `c`, or -1. */
  function RFind(s: string, c: char): (i: int)
    ensures -1 <= i < |s|
    ensures i >= 0 ==> s[i] == c
    ensures forall j :: i < j < |s| ==> s[j] != c
  {
    if s == "" then -1
    else if s[|s| - 1] == c then |s| - 1
    else RFind(s[..|s| - 1], c)
  }

  /** `os.path.basename(p)`: everything after the last `/`. */
  function Basename(p: string): (r: string)
    ensures '/' !in r
    ensures |r| <= |p| && r == p[|p| - |r|..]
    ensures |r| < |p| ==> p[|p| - |r| - 1] == '/'
  {
    var i := RFind(p, '/') + 1;
    assert forall j :: 0 <= j < |p| - i ==> p[i..][j] == p[i + j];
    p[i..]
  }

  /** Some character of `p[lo..hi]` is not a dot. */
  predicate HasNonDot(p: string, lo: int, hi: int)
    requires 0 <= lo <= hi <= |p|
  {
    exists k :: lo <= k < hi && p[k] != '.'
  }

  /** `os.path.splitext(p)`: the extension starts at the last dot, provided that
      dot lies in the last path component and is preceded there by at least one
      character that is not a dot; otherwise the extension is empty. */
  function SplitExt(p: string): (r: (string, string))
    ensures r.0 + r.1 == p
    ensures r.1 == "" || (r.1[0] == '.' && '/' !in r.1 && '.' !in r.1[1..])
  {
    var sep, dot := RFind(p, '/'), RFind(p, '.');
    if dot > sep && HasNonDot(p, sep + 1, dot) then
      assert forall j :: 0 <= j < |p| - dot ==> p[dot..][j] == p[dot + j];
      (p[..dot], p[dot..])
    else
      (p, "")
  }

  /** `i` is where an extension starts in `p`: a dot after which there is no
      other dot and no `/`, with a character that is neither a dot nor a `/`
      between it and the start of its path component. */
  ghost predicate ExtensionAt(p: string, i: int) {
    && 0 <= i < |p|
    && p[i] == '.'
    && (forall j :: i < j < |p| ==> p[j] != '.' && p[j] != '/')
    && exists k :: 0 <= k < i && p[k] != '.' && forall j :: k <= j < i ==> p[j] != '/'
  }

  /** `splitext` finds an extension exactly when there is a place one can start,
      and then splits there. */
  lemma SplitExtFindsExtension(p: string)
    ensures SplitExt(p).1 != "" <==> exists i :: ExtensionAt(p, i)
    ensures forall i :: ExtensionAt(p, i) ==> SplitExt(p) == (p[..i], p[i..])
  {
    var sep, dot := RFind(p, '/'), RFind(p, '.');
    if SplitExt(p).1 != "" {
      var k :| sep + 1 <= k < dot && p[k] != '.';
      assert ExtensionAt(p, dot);
    }
    forall i | ExtensionAt(p, i) ensures SplitExt(p) == (p[..i], p[i..]) {
      var k :| 0 <= k < i && p[k] != '.' && forall j :: k <= j < i ==> p[j] != '/';
      assert dot == i;
      assert sep < k;
      assert HasNonDot(p, sep + 1, dot);
    }
  }

  /** `os.path.join(a, b)`: `b` alone when it is absolute, else `a` and `b`
      with one `/` between them unless `a` is empty or already ends in `/`. */
  function Join(a: string, b: string): string {
    if StartsWith(b, "/") then b
    else if a == "" || a[|a| - 1] == '/' then a + b
    else a + "/" + b
  }
}
