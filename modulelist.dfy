/**
 * Lines 26-47: the plugin module names derived from the globbed file paths,
 * and the removal of the `__init__` entries from both lists while they are
 * being iterated.
 */
module ModuleList {
  import opened PyText
  import opened PyList

  /** `s.rfind(c)`: the last index of `c`, or -1. */
  function RFind(s: string, c: char): (r: int)
    ensures -1 <= r < |s|
    ensures r >= 0 ==> s[r] == c
    ensures forall k :: r < k < |s| ==> s[k] != c
  {
    if s == [] then -1
    else if s[|s| - 1] == c then |s| - 1
    else RFind(s[..|s| - 1], c)
  }

  /** `os.path.basename(p)`: everything after the last `/`. */
  function BaseName(p: string): (r: string)
    ensures '/' !in r
    ensures |r| <= |p| && r == p[|p| - |r|..]
    ensures '/' !in p ==> r == p
  {
    p[RFind(p, '/') + 1..]
  }

  /**
   * `os.path.splitext(p)[0]`: cut at the last dot when it comes after the last
   * `/` and is not one of the dots the file name starts with.
   */
  function SplitExtRoot(p: string): (r: string)
    ensures r <= p
    ensures r == p || p[|r|] == '.'
    ensures '.' !in p ==> r == p
  {
    var sep := RFind(p, '/');
    var dot := RFind(p, '.');
    if dot > sep && exists k | sep + 1 <= k < dot :: p[k] != '.' then p[..dot] else p
  }

  /** Lines 32-33: `splitext(basename(i))[0]` for each path. */
  function BaseNames(paths: seq<string>): (r: seq<string>)
    ensures |r| == |paths|
    ensures forall i :: 0 <= i < |r| ==> r[i] == SplitExtRoot(BaseName(paths[i]))
    ensures forall i :: 0 <= i < |r| ==> '/' !in r[i]
  {
    seq(|paths|, i requires 0 <= i < |paths| => SplitExtRoot(BaseName(paths[i])))
  }

  /** Line 37: `'module.' + i` for each base name. */
  function ModuleNames(baseNames: seq<string>): (r: seq<string>)
    ensures |r| == |baseNames|
    ensures forall i :: 0 <= i < |r| ==> r[i] == "module." + baseNames[i]
  {
    seq(|baseNames|, i requires 0 <= i < |baseNames| => "module." + baseNames[i])
  }

  /** A globbed `<dir>/<stem>.py` file yields `<stem>` as its base name. */
  lemma BaseNameOfScript(dir: string, stem: string, k: nat)
    requires '/' !in stem && k < |stem| && stem[k] != '.'
    ensures SplitExtRoot(BaseName(dir + "/" + stem + ".py")) == stem
  {
    var p := dir + "/" + stem + ".py";
    assert p[|dir|] == '/';
    assert p[|dir| + 1..] == stem + ".py";
    var b := stem + ".py";
    assert RFind(p, '/') == |dir|;
    assert BaseName(p) == b;
    assert b[|stem|] == '.';
    assert RFind(b, '/') == -1;
    assert RFind(b, '.') == |stem|;
    assert b[k] != '.';
    assert b[..|stem|] == stem;
  }

  const Init := "__init__"

  /**
   * Lines 40-47 as the loop runs: Python's list iterator walks by position
   * `pos`; an entry containing `__init__` is deleted where `index` finds it
   * first, and the iterator then moves on, past the entry that slid into place.
   */
  function Sweep(list: seq<string>, pos: nat): (r: seq<string>)
    ensures |r| <= |list|
    ensures forall x :: x in r ==> x in list
    decreases |list| - pos
  {
    if pos >= |list| then list
    else if Contains(list[pos], Init) then Sweep(RemoveFirst(list, list[pos]), pos + 1)
    else Sweep(list, pos + 1)
  }

  /** The removal loop of lines 40-43 (and, on `baseNames`, 44-47). */
  method RemoveInitEntries(names: seq<string>) returns (r: seq<string>)
    ensures r == Sweep(names, 0)
  {
    var list := names;
    var pos := 0;
    while pos < |list|
      invariant Sweep(list, pos) == Sweep(names, 0)
      decreases |list| - pos
    {
      var item := list[pos];
      if Contains(item, Init) {
        var idx := FirstIndexOf(list, item);
        list := list[..idx] + list[idx + 1..];
      }
      pos := pos + 1;
    }
    return list;
  }

  /** The entries without `__init__`, in order: what the comment on line 39 asks for. */
  function WithoutInit(s: seq<string>): (r: seq<string>)
    ensures forall x :: x in r ==> x in s && !Contains(x, Init)
  {
    if s == [] then []
    else WithoutInit(s[..|s| - 1]) + (if Contains(s[|s| - 1], Init) then [] else [s[|s| - 1]])
  }

  /** Only entries containing `__init__` are removed, and an entry is never duplicated. */
  lemma {:induction false} SweepRemovesOnlyInit(list: seq<string>, pos: nat)
    ensures multiset(Sweep(list, pos)) <= multiset(list)
    ensures forall x :: !Contains(x, Init) ==> multiset(Sweep(list, pos))[x] == multiset(list)[x]
    decreases |list| - pos
  {
    if pos < |list| {
      if Contains(list[pos], Init) {
        RemoveFirstMultiset(list, list[pos]);
        SweepRemovesOnlyInit(RemoveFirst(list, list[pos]), pos + 1);
      } else {
        SweepRemovesOnlyInit(list, pos + 1);
      }
    }
  }

  /** No two neighbouring entries both contain `__init__`. */
  predicate NoAdjacentInit(s: seq<string>)
  {
    forall i :: 0 <= i < |s| - 1 ==> !(Contains(s[i], Init) && Contains(s[i + 1], Init))
  }

  lemma WithoutInitSnoc(s: seq<string>, k: nat)
    requires k < |s|
    ensures WithoutInit(s[..k + 1]) == WithoutInit(s[..k]) + (if Contains(s[k], Init) then [] else [s[k]])
  {
    assert s[..k + 1][..k] == s[..k];
  }

  /** After `k` entries the loop stands on `s[k]`, and `index` finds it there. */
  lemma StepAt(s: seq<string>, k: nat)
    requires k < |s| && NoDuplicates(s)
    ensures var done := WithoutInit(s[..k]);
      && |done| < |done + s[k..]|
      && (done + s[k..])[|done|] == s[k]
      && s[k] in done + s[k..]
      && FirstIndexOf(done + s[k..], s[k]) == |done|
  {
    var done := WithoutInit(s[..k]);
    var list := done + s[k..];
    assert list[|done|] == s[k];
    assert s[k] !in done;
    assert list[..|done|] == done;
    FirstIndexOfAt(list, s[k], |done|);
  }

  /** Deleting `s[k]` where the loop stands leaves the kept entries and the rest after `s[k]`. */
  lemma StepRemove(s: seq<string>, k: nat)
    requires k < |s| && NoDuplicates(s)
    ensures s[k] in WithoutInit(s[..k]) + s[k..]
    ensures RemoveFirst(WithoutInit(s[..k]) + s[k..], s[k]) == WithoutInit(s[..k]) + s[k + 1..]
  {
    var done := WithoutInit(s[..k]);
    var list := done + s[k..];
    StepAt(s, k);
    assert list[..|done|] == done;
    assert list[|done| + 1..] == s[k + 1..];
  }

  /** Where the loop stands once the first `k` entries are dealt with: the kept ones, then the rest. */
  function Resume(s: seq<string>, k: nat): seq<string>
    requires k <= |s|
  {
    Sweep(WithoutInit(s[..k]) + s[k..], |WithoutInit(s[..k])|)
  }

  lemma SweepKeepAt(list: seq<string>, pos: nat)
    requires pos < |list| && !Contains(list[pos], Init)
    ensures Sweep(list, pos) == Sweep(list, pos + 1)
  {
  }

  lemma SweepDropAt(list: seq<string>, pos: nat)
    requires pos < |list| && Contains(list[pos], Init)
    ensures Sweep(list, pos) == Sweep(RemoveFirst(list, list[pos]), pos + 1)
  {
  }

  lemma Regroup(done: seq<string>, s: seq<string>, k: nat)
    requires k < |s|
    ensures done + s[k..] == (done + [s[k]]) + s[k + 1..]
  {
    assert s[k..] == [s[k]] + s[k + 1..];
  }

  lemma KeepStep(s: seq<string>, k: nat)
    requires k < |s| && NoDuplicates(s) && !Contains(s[k], Init)
    ensures Resume(s, k) == Resume(s, k + 1)
  {
    var done := WithoutInit(s[..k]);
    var list := done + s[k..];
    StepAt(s, k);
    SweepKeepAt(list, |done|);
    WithoutInitSnoc(s, k);
    Regroup(done, s, k);
  }

  lemma DropStep(s: seq<string>, k: nat)
    requires k + 1 < |s| && NoDuplicates(s) && Contains(s[k], Init) && !Contains(s[k + 1], Init)
    ensures Resume(s, k) == Resume(s, k + 2)
  {
    var done := WithoutInit(s[..k]);
    var list := done + s[k..];
    var next := done + s[k + 1..];
    StepAt(s, k);
    StepRemove(s, k);
    SweepDropAt(list, |done|);
    assert Resume(s, k) == Sweep(next, |done| + 1);
    WithoutInitSnoc(s, k);
    WithoutInitSnoc(s, k + 1);
    var done2 := WithoutInit(s[..k + 2]);
    assert done2 == done + [s[k + 1]];
    Regroup(done, s, k + 1);
    assert next == done2 + s[k + 2..];
  }

  lemma DropLast(s: seq<string>, k: nat)
    requires k + 1 == |s| && NoDuplicates(s) && Contains(s[k], Init)
    ensures Resume(s, k) == WithoutInit(s)
  {
    var done := WithoutInit(s[..k]);
    var list := done + s[k..];
    StepAt(s, k);
    StepRemove(s, k);
    WithoutInitSnoc(s, k);
    assert Sweep(list, |done|) == Sweep(done, |done| + 1);
    assert s[..k + 1] == s;
  }

  /**
   * From the state reached after the first `k` entries, the loop ends with
   * exactly the entries without `__init__`, when no entry repeats and no two
   * neighbours both contain `__init__`.
   */
  lemma {:induction false} SweepSeparatedFrom(s: seq<string>, k: nat)
    requires k <= |s| && NoDuplicates(s) && NoAdjacentInit(s)
    ensures Resume(s, k) == WithoutInit(s)
    decreases |s| - k
  {
    if k == |s| {
      assert s[..k] == s && s[k..] == [];
    } else if !Contains(s[k], Init) {
      KeepStep(s, k);
      SweepSeparatedFrom(s, k + 1);
    } else if k + 1 == |s| {
      DropLast(s, k);
    } else {
      assert !Contains(s[k + 1], Init);
      DropStep(s, k);
      SweepSeparatedFrom(s, k + 2);
    }
  }

  /** Under the same conditions the whole loop removes exactly the `__init__` entries. */
  lemma SweepSeparated(s: seq<string>)
    requires NoDuplicates(s) && NoAdjacentInit(s)
    ensures Sweep(s, 0) == WithoutInit(s)
  {
    SweepSeparatedFrom(s, 0);
    assert s[..0] == [];
    assert WithoutInit(s[..0]) + s[0..] == s;
  }

  /** Two neighbouring `__init__` entries: the second survives the loop. */
  lemma SweepSkipsNeighbour()
    ensures Sweep(["x__init__", "__init__"], 0) == ["__init__"]
    ensures WithoutInit(["x__init__", "__init__"]) == []
  {
    var s := ["x__init__", "__init__"];
    assert OccursAt(s[0], Init, 1);
    assert OccursAt(s[1], Init, 0);
    assert FirstIndexOf(s, s[0]) == 0;
    assert RemoveFirst(s, s[0]) == ["__init__"];
    assert s[..1] == ["x__init__"];
  }

  /** The `'module.'` prefix neither creates nor hides an `__init__`. */
  lemma PrefixedContainsInit(x: string)
    ensures Contains("module." + x, Init) <==> Contains(x, Init)
  {
    var p := "module." + x;
    if Contains(x, Init) {
      var i :| 0 <= i <= |x| && OccursAt(x, Init, i);
      assert p[i + 7..i + 7 + |Init|] == x[i..i + |Init|];
      assert OccursAt(p, Init, i + 7);
    }
    forall i | 0 <= i < 7 ensures !OccursAt(p, Init, i) {
      if i + |Init| <= |p| {
        assert p[i..i + |Init|][6 - i] == p[6] == '.';
        assert Init[6 - i] != '.';
      }
    }
    if Contains(p, Init) {
      var i :| 0 <= i <= |p| && OccursAt(p, Init, i);
      assert x[i - 7..i - 7 + |Init|] == p[i..i + |Init|];
      assert OccursAt(x, Init, i - 7);
    }
  }

  /** Prefixing every name commutes with deleting the first occurrence of one. */
  lemma RemoveFirstPrefixed(l: seq<string>, x: string)
    requires x in l
    ensures "module." + x in ModuleNames(l)
    ensures RemoveFirst(ModuleNames(l), "module." + x) == ModuleNames(RemoveFirst(l, x))
  {
    var m := ModuleNames(l);
    var i := FirstIndexOf(l, x);
    assert m[i] == "module." + x;
    forall j | 0 <= j < i ensures m[j] != "module." + x {
      assert l[..i][j] == l[j];
      assert ("module." + l[j])[7..] == l[j];
      assert ("module." + x)[7..] == x;
    }
    assert FirstIndexOf(m, "module." + x) == i;
  }

  /**
   * Lines 40-47 delete the same positions from `moduleNames` as from
   * `baseNames`, so the two lists stay aligned.
   */
  lemma {:induction false} SweepAligned(l: seq<string>, pos: nat)
    ensures Sweep(ModuleNames(l), pos) == ModuleNames(Sweep(l, pos))
    decreases |l| - pos
  {
    if pos < |l| {
      PrefixedContainsInit(l[pos]);
      assert ModuleNames(l)[pos] == "module." + l[pos];
      if Contains(l[pos], Init) {
        RemoveFirstPrefixed(l, l[pos]);
        SweepAligned(RemoveFirst(l, l[pos]), pos + 1);
      } else {
        SweepAligned(l, pos + 1);
      }
    }
  }
}
