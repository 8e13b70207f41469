/**
 * `mergeCommandDict` (lines 330-345): every module's `<baseName>Dict` is folded
 * into one name-to-icon dictionary with `dict.update`, in `baseNames` order.
 */
module CommandDict {
  import opened Wrappers
  import History
  import Launcher

  /** Folding `dict.update` over the dictionaries, starting from `{}`. */
  function Merged(ds: seq<map<string, string>>): (m: map<string, string>)
    ensures forall k :: k in m <==> exists i :: 0 <= i < |ds| && k in ds[i]
  {
    if ds == [] then map[] else Merged(ds[..|ds| - 1]) + ds[|ds| - 1]
  }

  /** A key's merged value is the one from the last dictionary that defines it. */
  lemma {:induction false} MergedLastWins(ds: seq<map<string, string>>, k: string, i: nat)
    requires i < |ds| && k in ds[i]
    requires forall j :: i < j < |ds| ==> k !in ds[j]
    ensures k in Merged(ds) && Merged(ds)[k] == ds[i][k]
  {
    if i < |ds| - 1 {
      MergedLastWins(ds[..|ds| - 1], k, i);
    }
  }

  /** The attribute holding a module's command dictionary. */
  function DictAttr(baseName: string): string
  {
    baseName + "Dict"
  }

  /** The modules' dictionaries in `baseNames` order. */
  function ModuleDicts(baseNames: seq<string>, attrs: map<string, map<string, string>>): (ds: seq<map<string, string>>)
    requires forall i :: 0 <= i < |baseNames| ==> DictAttr(baseNames[i]) in attrs
    ensures |ds| == |baseNames|
    ensures forall i :: 0 <= i < |baseNames| ==> ds[i] == attrs[DictAttr(baseNames[i])]
  {
    seq(|baseNames|, i requires 0 <= i < |baseNames| => attrs[DictAttr(baseNames[i])])
  }

  /**
   * Lines 334-336: build a `MainClass` window, whose `createData` (line 118)
   * loads the catalog and the history and can raise `TypeError` or `KeyError`;
   * then start from the empty `commandDict` and update it with each module's
   * dictionary, where a module without its dictionary attribute raises
   * `AttributeError`.  The result is what is dumped to the catalog file, and
   * the history file is returned as the window's start-up leaves it.
   */
  method MergeCommandDict(catalog: Option<Launcher.Catalog>, historyFile: Option<string>,
                          baseNames: seq<string>, attrs: map<string, map<string, string>>)
    returns (r: Result<map<string, string>>, historyFile': Option<string>)
    requires catalog.Some? ==> Launcher.WellFormed(catalog.value)
    ensures historyFile' == History.LoadHistory(historyFile).1
    ensures Launcher.CreateData(catalog, historyFile).0.Err? ==>
      r == Err(Launcher.CreateData(catalog, historyFile).0.error)
    ensures Launcher.CreateData(catalog, historyFile).0.Ok? ==>
      && (r.Err? <==> exists i :: 0 <= i < |baseNames| && DictAttr(baseNames[i]) !in attrs)
      && (r.Err? ==> r.error == AttributeError)
      && (r.Ok? ==> r.value == Merged(ModuleDicts(baseNames, attrs)))
  {
    var (start, file') := Launcher.CreateData(catalog, historyFile);
    historyFile' := file';
    if start.Err? {
      return Err(start.error), historyFile';
    }
    var commandDict: map<string, string> := map[];
    var i := 0;
    while i < |baseNames|
      invariant 0 <= i <= |baseNames|
      invariant forall j :: 0 <= j < i ==> DictAttr(baseNames[j]) in attrs
      invariant commandDict == Merged(ModuleDicts(baseNames[..i], attrs))
    {
      var attr := DictAttr(baseNames[i]);
      if attr !in attrs {
        return Err(AttributeError), historyFile';
      }
      assert ModuleDicts(baseNames[..i + 1], attrs)[..i] == ModuleDicts(baseNames[..i], attrs);
      commandDict := commandDict + attrs[attr];
      i := i + 1;
    }
    assert baseNames[..i] == baseNames;
    return Ok(commandDict), historyFile';
  }

  /**
   * With the catalog file gone (it reads as empty) and a non-empty history,
   * the window `mergeCommandDict` builds raises `KeyError`, so the catalog
   * cannot be written again while that history stays.
   */
  lemma MergeBlockedByStaleHistory(text: string)
    requires History.Parse(text) != []
    ensures Launcher.CreateData(None, Some(text)).0 == Err(KeyError)
  {
    var h := History.Parse(text);
    assert h[0] !in [];
  }
}
