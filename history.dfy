/**
 * The history store: a most-recent-first list of command names kept in a
 * newline-terminated text file (`loadHistory` and `updateHistory`).
 * The file is a value: `None` when it does not exist, `Some(text)` otherwise.
 */
module History {
  import opened Wrappers
  import opened PyText
  import opened PyList

  /** Concatenation of a sequence of strings. */
  function Concat(lines: seq<string>): string
  {
    if lines == [] then "" else lines[0] + Concat(lines[1..])
  }

  /**
   * The shape of `readlines`' output: no line is empty, a newline can only be
   * a line's last character, and every line but the last ends in one.
   */
  predicate LineShaped(lines: seq<string>)
  {
    && (forall i :: 0 <= i < |lines| ==> lines[i] != [])
    && (forall i :: 0 <= i < |lines| ==> '\n' !in lines[i][..|lines[i]| - 1])
    && (forall i :: 0 <= i < |lines| - 1 ==> lines[i][|lines[i]| - 1] == '\n')
  }

  lemma LineShapedCons(line: string, lines: seq<string>)
    requires line != [] && line[|line| - 1] == '\n' && '\n' !in line[..|line| - 1]
    requires LineShaped(lines)
    ensures LineShaped([line] + lines)
  {
    var all := [line] + lines;
    forall i | 1 <= i < |all| ensures all[i] == lines[i - 1] {
    }
  }

  /**
   * `file.readlines()`: the text cut after every newline; each line keeps its
   * newline, and the last line has none when the text does not end in one.
   */
  function ReadLines(text: string): (lines: seq<string>)
    ensures Concat(lines) == text
    ensures LineShaped(lines)
    decreases |text|
  {
    if text == [] then []
    else if '\n' in text then
      var k := FirstIndexOf(text, '\n');
      var line := text[..k + 1];
      assert text == line + text[k + 1..];
      assert line[..k] == text[..k];
      LineShapedCons(line, ReadLines(text[k + 1..]));
      [line] + ReadLines(text[k + 1..])
    else [text]
  }

  /** The list `loadHistory` builds from the file text: `[i.rstrip() for i in readlines()]`. */
  function Parse(text: string): (h: seq<string>)
    ensures |h| == |ReadLines(text)|
    ensures forall i :: 0 <= i < |h| ==> h[i] <= ReadLines(text)[i]
  {
    var lines := ReadLines(text);
    seq(|lines|, i requires 0 <= i < |lines| => RStrip(lines[i]))
  }

  /** The text `updateHistory` writes: every entry followed by a newline. */
  function Serialize(h: seq<string>): (text: string)
    ensures text == [] <==> h == []
    ensures h != [] ==> text[|text| - 1] == '\n'
  {
    if h == [] then "" else h[0] + "\n" + Serialize(h[1..])
  }

  /** A name that survives a write and a read unchanged. */
  predicate Storable(name: string)
  {
    '\n' !in name && NoTrailingSpace(name)
  }

  /** Lines 364-366: remove the first earlier occurrence of `c`, then insert `c` at index 0. */
  function Promote<T(==)>(h: seq<T>, c: T): (r: seq<T>)
    ensures |r| == if c in h then |h| else |h| + 1
    ensures r[0] == c
  {
    [c] + (if c in h then RemoveFirst(h, c) else h)
  }

  /**
   * `loadHistory()`: the parsed list when the file exists; otherwise it creates
   * an empty file and returns `None`.  Returns the list and the file afterwards.
   */
  function LoadHistory(file: Option<string>): (r: (Option<seq<string>>, Option<string>))
    ensures r.1.Some?
    ensures r.0.Some? <==> file.Some?
    ensures file.Some? ==> r.1 == file && r.0 == Some(Parse(file.value))
    ensures file.None? ==> r.1 == Some("")
  {
    match file
    case None => (None, Some(""))
    case Some(text) => (Some(Parse(text)), file)
  }

  /**
   * `loadHistory()` as its caller needs it: `createData` iterates the result
   * (line 156), so a missing file is created empty and reads as the empty history.
   */
  function LoadHistoryOrEmpty(file: Option<string>): (r: (seq<string>, Option<string>))
    ensures r.1 == LoadHistory(file).1
    ensures file.None? ==> r.0 == []
    ensures file.Some? ==> r.0 == Parse(file.value)
  {
    match file
    case None => ([], Some(""))
    case Some(text) => (Parse(text), file)
  }

  /** Every entry as a Python value (the list may later receive `None`). */
  function Wrap(h: seq<string>): (r: seq<Option<string>>)
    ensures |r| == |h| && forall i :: 0 <= i < |h| ==> r[i] == Some(h[i])
  {
    seq(|h|, i requires 0 <= i < |h| => Some(h[i]))
  }

  /**
   * `updateHistory(command)`: reload the list, move `command` to the front,
   * truncate the file and write the entries one by one.  A `None` command is
   * inserted like any other and makes the first write raise `TypeError`,
   * after the file has been truncated; a missing file makes the membership
   * test raise `TypeError` (the file is created by the reload).
   */
  method UpdateHistory(file: Option<string>, command: Option<string>)
    returns (file': Option<string>, err: Option<PyError>)
    ensures file.Some? && command.Some? ==>
      err.None? && file' == Some(Serialize(Promote(Parse(file.value), command.value)))
    ensures file.None? || command.None? ==> err == Some(TypeError) && file' == Some("")
  {
    var (loaded, created) := LoadHistory(file);
    if loaded.None? {
      // `command in historyList` with historyList None
      return created, Some(TypeError);
    }
    var list := Wrap(loaded.value);
    if command in list {
      list := RemoveFirst(list, command);
    }
    list := [command] + list;
    PromoteWrap(loaded.value, command);
    if command.Some? {
      ValuesWrap(Promote(loaded.value, command.value));
    }
    // open(..., 'w') truncates the file before the entries are written.
    var out;
    out, err := WriteEntries(list);
    file' := Some(out);
  }

  /** The names of a list that holds no `None`. */
  function Values(list: seq<Option<string>>): (h: seq<string>)
    requires None !in list
  {
    seq(|list|, i requires 0 <= i < |list| => list[i].value)
  }

  /**
   * Lines 368-369: `histFile.write(i + "\n")` for each entry, stopping with
   * `TypeError` at the first `None`; the text is what reached the file.
   */
  method WriteEntries(list: seq<Option<string>>) returns (out: string, err: Option<PyError>)
    ensures err.None? <==> None !in list
    ensures err.Some? ==> err == Some(TypeError)
    ensures None !in list ==> out == Serialize(Values(list))
    ensures list != [] && list[0] == None ==> out == ""
  {
    out := "";
    ghost var written: seq<string> := [];
    var i := 0;
    while i < |list|
      invariant 0 <= i <= |list| && |written| == i
      invariant forall j :: 0 <= j < i ==> list[j] == Some(written[j])
      invariant out == Serialize(written)
    {
      match list[i] {
        case None =>
          // `None + "\n"`
          return out, Some(TypeError);
        case Some(name) =>
          SerializeSnoc(written, name);
          out := out + name + "\n";
          written := written + [name];
      }
      i := i + 1;
    }
    assert written == Values(list);
    return out, None;
  }

  lemma {:induction false} SerializeSnoc(h: seq<string>, name: string)
    ensures Serialize(h + [name]) == Serialize(h) + name + "\n"
  {
    if h != [] {
      assert (h + [name])[1..] == h[1..] + [name];
      SerializeSnoc(h[1..], name);
    }
  }

  lemma ValuesWrap(h: seq<string>)
    ensures None !in Wrap(h) && Values(Wrap(h)) == h
  {
  }

  lemma WrapMember(h: seq<string>, v: Option<string>)
    ensures v in Wrap(h) <==> v.Some? && v.value in h
  {
    if v.Some? && v.value in h {
      var i := FirstIndexOf(h, v.value);
      assert Wrap(h)[i] == v;
    }
  }

  /** Wrapping the names commutes with promoting a name; `None` is never in a wrapped list. */
  lemma PromoteWrap(h: seq<string>, command: Option<string>)
    ensures command.None? ==> command !in Wrap(h)
    ensures command.Some? ==> (command in Wrap(h) <==> command.value in h)
    ensures command.Some? ==> Promote(Wrap(h), command) == Wrap(Promote(h, command.value))
  {
    var w := Wrap(h);
    WrapMember(h, command);
    if command.Some? {
      var c := command.value;
      if c in h {
        var i := FirstIndexOf(h, c);
        assert w[..i] == Wrap(h[..i]);
        FirstIndexOfAt(w, command, i);
        var rest := h[..i] + h[i + 1..];
        assert w[..i] + w[i + 1..] == Wrap(rest);
        assert Promote(w, command) == [command] + Wrap(rest);
        assert Wrap([c] + rest) == [command] + Wrap(rest);
      } else {
        assert command !in w;
        assert Wrap([c] + h) == [command] + w;
      }
    }
  }


  /**
   * After `updateHistory(c)` the list starts with `c`; when `c` was present only
   * its first occurrence is gone and the length is unchanged, otherwise the old
   * list follows `c` intact; every other entry keeps its relative order.
   */
  lemma PromoteShape<T>(h: seq<T>, c: T)
    ensures |Promote(h, c)| > 0 && Promote(h, c)[0] == c
    ensures c !in h ==> |Promote(h, c)| == |h| + 1 && Promote(h, c)[1..] == h
    ensures c in h ==>
      var i := FirstIndexOf(h, c);
      && |Promote(h, c)| == |h|
      && (forall j :: 0 <= j < i ==> Promote(h, c)[j + 1] == h[j])
      && (forall j :: i < j < |h| ==> Promote(h, c)[j] == h[j])
    ensures multiset(Promote(h, c)) == multiset(h) + (if c in h then multiset{} else multiset{c})
  {
    if c in h {
      var i := FirstIndexOf(h, c);
      assert h == h[..i] + [c] + h[i + 1..];
      assert multiset(h) == multiset(h[..i]) + multiset{c} + multiset(h[i + 1..]);
    }
  }

  /** Recording the same command twice leaves the list as recording it once. */
  lemma PromoteIdempotent<T>(h: seq<T>, c: T)
    ensures Promote(Promote(h, c), c) == Promote(h, c)
  {
    var r := Promote(h, c);
    assert FirstIndexOf(r, c) == 0;
    assert RemoveFirst(r, c) == r[1..];
  }

  /** A duplicate-free history stays duplicate-free. */
  lemma PromoteKeepsNoDuplicates<T>(h: seq<T>, c: T)
    requires NoDuplicates(h)
    ensures NoDuplicates(Promote(h, c))
  {
    if c in h {
      var i := FirstIndexOf(h, c);
      var rest := h[..i] + h[i + 1..];
      assert |rest| == |h| - 1;
      forall k | 0 <= k < |rest| ensures rest[k] != c {
        DropAt(h, i, k);
        assert h[i] == c;
      }
      forall a, b | 0 <= a < b < |rest| ensures rest[a] != rest[b] {
        DropAt(h, i, a);
        DropAt(h, i, b);
      }
      assert Promote(h, c) == [c] + rest;
    }
  }

  lemma {:induction false} ReadLinesCons(name: string, rest: string)
    requires '\n' !in name
    ensures ReadLines(name + "\n" + rest) == [name + "\n"] + ReadLines(rest)
  {
    var t := name + "\n" + rest;
    assert t[|name|] == '\n' && t[..|name|] == name;
    assert FirstIndexOf(t, '\n') == |name|;
    assert t[..|name| + 1] == name + "\n";
    assert t[|name| + 1..] == rest;
  }

  /** Loading a text that starts with a storable line yields that name first. */
  lemma ParseCons(name: string, rest: string)
    requires Storable(name)
    ensures Parse(name + "\n" + rest) == [name] + Parse(rest)
  {
    ReadLinesCons(name, rest);
    RStripNewline(name);
  }

  /**
   * Writing a history and loading it back gives the same list, provided no
   * name holds a newline or ends in whitespace.
   */
  lemma {:induction false} LoadAfterWrite(h: seq<string>)
    requires forall i :: 0 <= i < |h| ==> Storable(h[i])
    ensures Parse(Serialize(h)) == h
  {
    if h != [] {
      ParseCons(h[0], Serialize(h[1..]));
      LoadAfterWrite(h[1..]);
      assert h == [h[0]] + h[1..];
    }
  }

  /** Every name `loadHistory` returns is storable. */
  lemma ParsedStorable(text: string)
    ensures forall i :: 0 <= i < |Parse(text)| ==> Storable(Parse(text)[i])
  {
    var lines := ReadLines(text);
    forall i | 0 <= i < |lines| ensures Storable(RStrip(lines[i])) {
      var r := RStrip(lines[i]);
      assert r <= lines[i];
    }
  }

  /**
   * After `updateHistory(c)` on an existing file, the next `loadHistory` yields
   * exactly the promoted list, when `c` itself is storable.
   */
  lemma ReloadAfterUpdate(text: string, c: string)
    requires Storable(c)
    ensures Parse(Serialize(Promote(Parse(text), c))) == Promote(Parse(text), c)
  {
    var h := Parse(text);
    ParsedStorable(text);
    PromoteShape(h, c);
    var r := Promote(h, c);
    forall i | 0 <= i < |r| ensures Storable(r[i]) {
      assert r[i] in multiset(r);
    }
    LoadAfterWrite(r);
  }
}
