/** The parts of Python's `posixpath` the scanner relies on: `join` of two components,
    `basename`, `splitext`, and the split of a path into its components at `/`. */
module Paths {
  import opened Strings

  const Sep: char := '/'
  const ExtSep: char := '.'

  /** `os.path.join(a, b)`: an absolute `b` replaces `a`; otherwise `b` is appended after a
      separator, unless `a` is empty or already ends with one. */
  function Join(a: string, b: string): (r: string)
    ensures b != [] && b[0] == Sep ==> r == b
    ensures (b == [] || b[0] != Sep) && a != [] && a[|a| - 1] != Sep ==> r == a + [Sep] + b
    ensures (b == [] || b[0] != Sep) && (a == [] || a[|a| - 1] == Sep) ==> r == a + b
  {
    if b != [] && b[0] == Sep then b
    else if a == [] || a[|a| - 1] == Sep then a + b
    else a + [Sep] + b
  }

  /** The index of the last `c` in `s`, or -1 (`str.rfind` of one character). */
  function LastIndexOf(s: string, c: char): (r: int)
    ensures -1 <= r < |s|
    ensures r >= 0 ==> s[r] == c
    ensures forall k :: r < k < |s| ==> s[k] != c
  {
    if s == [] then -1
    else if s[|s| - 1] == c then |s| - 1
    else LastIndexOf(s[..|s| - 1], c)
  }

  /** `os.path.basename(p)`: what follows the last separator. */
  function Basename(p: string): (r: string)
    ensures Sep !in r
    ensures |r| <= |p| && r == p[|p| - |r|..]
    ensures |r| < |p| ==> p[|p| - |r| - 1] == Sep
  {
    var i := LastIndexOf(p, Sep);
    var r := p[i + 1..];
    assert forall c :: c in r ==> c != Sep by {
      forall c | c in r ensures c != Sep {
        var k :| 0 <= k < |r| && r[k] == c;
        assert p[i + 1 + k] == c;
      }
    }
    r
  }

  /** All of `s[from..to]` is `c`. */
  predicate AllChar(s: string, from: int, to: int, c: char)
    requires 0 <= from <= to <= |s|
  {
    forall k :: from <= k < to ==> s[k] == c
  }

  /** The extension `os.path.splitext(p)` returns: from the last dot of the last component
      to the end, provided the component has a character other than a dot before that dot;
      otherwise empty. So leading dots never start an extension. */
  function Extension(p: string): (ext: string)
    ensures ext == [] || ext[0] == ExtSep
    ensures Sep !in ext
    ensures |ext| <= |p| && ext == p[|p| - |ext|..]
    ensures ext != [] ==> ExtSep !in ext[1..]
    ensures ext != [] ==> |p| - |ext| == LastIndexOf(p, ExtSep)
  {
    var sepIndex := LastIndexOf(p, Sep);
    var dotIndex := LastIndexOf(p, ExtSep);
    if dotIndex > sepIndex && !AllChar(p, sepIndex + 1, dotIndex, ExtSep) then
      var ext := p[dotIndex..];
      assert forall k :: 0 <= k < |ext| ==> ext[k] == p[dotIndex + k];
      assert forall c :: c in ext ==> c != Sep by {
        forall c | c in ext ensures c != Sep {
          var k :| 0 <= k < |ext| && ext[k] == c;
          assert p[dotIndex + k] == c;
        }
      }
      assert forall c :: c in ext[1..] ==> c != ExtSep by {
        forall c | c in ext[1..] ensures c != ExtSep {
          var k :| 0 <= k < |ext[1..]| && ext[1..][k] == c;
          assert p[dotIndex + 1 + k] == c;
        }
      }
      ext
    else []
  }

  /** A path has an extension exactly when its last component has a dot with a character
      other than a dot before it. */
  lemma ExtensionExists(p: string)
    ensures Extension(p) != [] <==>
      exists j, k :: LastIndexOf(p, Sep) < j < k < |p| && p[k] == ExtSep && p[j] != ExtSep
  {
    ExtensionCondition(p, LastIndexOf(p, Sep), LastIndexOf(p, ExtSep));
  }

  lemma ExtensionCondition(p: string, sepIndex: int, dotIndex: int)
    requires sepIndex == LastIndexOf(p, Sep) && dotIndex == LastIndexOf(p, ExtSep)
    ensures (dotIndex > sepIndex && !AllChar(p, sepIndex + 1, dotIndex, ExtSep)) <==>
      exists j, k :: sepIndex < j < k < |p| && p[k] == ExtSep && p[j] != ExtSep
  {
    if dotIndex > sepIndex && !AllChar(p, sepIndex + 1, dotIndex, ExtSep) {
      var j :| sepIndex + 1 <= j < dotIndex && p[j] != ExtSep;
      assert sepIndex < j < dotIndex < |p| && p[dotIndex] == ExtSep;
    }
    if exists j, k :: sepIndex < j < k < |p| && p[k] == ExtSep && p[j] != ExtSep {
      var j, k :| sepIndex < j < k < |p| && p[k] == ExtSep && p[j] != ExtSep;
      assert k <= dotIndex;
      assert sepIndex + 1 <= j < dotIndex && p[j] != ExtSep;
    }
  }

  /** A file name such as `app.py` has the extension `.py`. */
  lemma ExtensionOfAppPy()
    ensures Extension("app.py") == ".py"
  {
    var p := "app.py";
    assert p[5] != ExtSep && p[4] != ExtSep && p[3] == ExtSep;
    assert LastIndexOf(p[..4], ExtSep) == 3;
    assert LastIndexOf(p, ExtSep) == 3;
    assert LastIndexOf(p, Sep) == -1;
    assert p[0] != ExtSep;
    assert p[3..] == ".py";
  }

  /** `set(p.split(os.sep))`: the components of a path. */
  function Parts(p: string): (r: set<string>)
    ensures forall part :: part in r ==> Sep !in part
  {
    set part | part in Split(p, Sep)
  }

  /** The components of a joined path are those of its two halves. */
  lemma PartsOfJoin(a: string, b: string)
    requires a != [] && a[|a| - 1] != Sep && (b == [] || b[0] != Sep)
    ensures Parts(Join(a, b)) == Parts(a) + Parts(b)
  {
    SplitConcat(a, b, Sep);
  }

  /** A path with no separator is its own only component. */
  lemma PartsOfName(name: string)
    requires Sep !in name
    ensures Parts(name) == {name}
  {
    SplitNoSep(name, Sep);
  }

  /** The basename of a component appended with `Join` is that component. */
  lemma BasenameOfJoin(a: string, name: string)
    requires name != [] && Sep !in name
    ensures Basename(Join(a, name)) == name
  {
    var p := Join(a, name);
    assert p[|p| - |name|..] == name;
    assert |p| == |name| || p[|p| - |name| - 1] == Sep;
  }

  /** What `Join` puts between a directory and a relative second part: one separator,
      unless the directory is empty or already ends with one. */
  function Glue(a: string): (g: string)
    ensures |g| <= 1 && (g == [] <==> a == [] || a[|a| - 1] == Sep)
  {
    if a == [] || a[|a| - 1] == Sep then [] else [Sep]
  }

  lemma JoinGlue(a: string, b: string)
    requires b == [] || b[0] != Sep
    ensures Join(a, b) == a + Glue(a) + b
  {
  }

  lemma GlueOfConcat(p: string, r: string)
    requires r != []
    ensures Glue(p + r) == Glue(r)
  {
    assert (p + r)[|p + r| - 1] == r[|r| - 1];
  }

  /** Joining a relative path and then a name onto a directory is joining the name onto the
      relative path first. */
  lemma JoinAssociates(a: string, r: string, name: string)
    requires r != [] && r[0] != Sep && name != [] && name[0] != Sep
    ensures Join(a, Join(r, name)) == Join(Join(a, r), name)
  {
    var p := a + Glue(a);
    var tail := Glue(r) + name;
    JoinGlue(r, name);
    ConcatAssoc(r, Glue(r), name);
    JoinGlue(a, r + tail);
    ConcatAssoc(a, Glue(a), r + tail);
    JoinGlue(a, r);
    ConcatAssoc(a, Glue(a), r);
    GlueOfConcat(p, r);
    JoinGlue(p + r, name);
    ConcatAssoc(p + r, Glue(r), name);
    ConcatAssoc(p, r, tail);
  }

  /** Joined onto a directory given with a trailing separator, a name keeps every component
      of the directory but the empty one after that separator. */
  lemma PartsOfJoinAfterSep(a: string, name: string)
    requires a != [] && a[|a| - 1] == Sep && (name == [] || name[0] != Sep)
    ensures Parts(a) <= Parts(Join(a, name)) + {[]}
  {
    var head := a[..|a| - 1];
    assert a == head + [Sep] + [];
    assert Join(a, name) == head + [Sep] + name;
    SplitConcat(head, [], Sep);
    SplitConcat(head, name, Sep);
    assert Split([], Sep) == [[]];
  }
}
