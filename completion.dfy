/**
 * Choosing the current completion in command mode (`getCurrentCompletion`,
 * lines 233-249): a case-insensitive substring filter over the command names,
 * in their given order, overridden by the completer widget's own completion.
 */
module Completion {
  import opened Wrappers
  import opened PyText

  /** `lowPrefix in name.lower()`, where `lowPrefix` is the already lower-cased prefix. */
  predicate Matches(lowPrefix: string, name: string): (r: bool)
    ensures lowPrefix == [] ==> r
    ensures r ==> |lowPrefix| <= |name|
  {
    Contains(Lower(name), lowPrefix)
  }

  /** `[i for i in commands if lowPrefix in i.lower()]`. */
  function Candidates(commands: seq<string>, lowPrefix: string): (r: seq<string>)
    ensures |r| <= |commands|
    ensures lowPrefix == [] ==> r == commands
  {
    if commands == [] then []
    else (if Matches(lowPrefix, commands[0]) then [commands[0]] else []) + Candidates(commands[1..], lowPrefix)
  }

  /**
   * The filter keeps exactly the matching commands, each as often as it
   * occurs, and nothing else.
   */
  lemma {:induction false} CandidatesMembers(commands: seq<string>, lowPrefix: string)
    ensures forall x :: multiset(Candidates(commands, lowPrefix))[x]
                        == if Matches(lowPrefix, x) then multiset(commands)[x] else 0
    ensures forall x :: x in Candidates(commands, lowPrefix) <==> x in commands && Matches(lowPrefix, x)
  {
    if commands != [] {
      CandidatesMembers(commands[1..], lowPrefix);
      assert commands == [commands[0]] + commands[1..];
      assert multiset(commands) == multiset{commands[0]} + multiset(commands[1..]);
    }
  }

  /** The filter keeps the command order: filtering a concatenation filters each part. */
  lemma {:induction false} CandidatesAppend(a: seq<string>, b: seq<string>, lowPrefix: string)
    ensures Candidates(a + b, lowPrefix) == Candidates(a, lowPrefix) + Candidates(b, lowPrefix)
  {
    if a == [] {
      assert a + b == b;
    } else {
      assert (a + b)[0] == a[0] && (a + b)[1..] == a[1..] + b;
      var head := if Matches(lowPrefix, a[0]) then [a[0]] else [];
      CandidatesAppend(a[1..], b, lowPrefix);
      assert Candidates(a + b, lowPrefix) == head + Candidates(a[1..] + b, lowPrefix);
      assert Candidates(a, lowPrefix) == head + Candidates(a[1..], lowPrefix);
    }
  }

  /** `i` is the position of the first command matching the prefix. */
  predicate FirstMatchAt(commands: seq<string>, lowPrefix: string, i: int)
  {
    && 0 <= i < |commands|
    && Matches(lowPrefix, commands[i])
    && forall j :: 0 <= j < i ==> !Matches(lowPrefix, commands[j])
  }

  lemma {:induction false} CandidatesHead(commands: seq<string>, lowPrefix: string)
    ensures Candidates(commands, lowPrefix) != [] ==>
      exists i :: FirstMatchAt(commands, lowPrefix, i) && commands[i] == Candidates(commands, lowPrefix)[0]
  {
    if commands != [] && Candidates(commands, lowPrefix) != [] {
      if Matches(lowPrefix, commands[0]) {
        assert FirstMatchAt(commands, lowPrefix, 0);
      } else {
        CandidatesHead(commands[1..], lowPrefix);
        var i :| FirstMatchAt(commands[1..], lowPrefix, i)
              && commands[1..][i] == Candidates(commands[1..], lowPrefix)[0];
        assert FirstMatchAt(commands, lowPrefix, i + 1);
      }
    }
  }

  /** `curCompList[0]`, or `None` when the list is empty (the `IndexError` path). */
  function TopCandidate(commands: seq<string>, lowPrefix: string): (r: Option<string>)
    ensures r.None? <==> forall i :: 0 <= i < |commands| ==> !Matches(lowPrefix, commands[i])
    ensures r.Some? ==> exists i :: FirstMatchAt(commands, lowPrefix, i) && commands[i] == r.value
  {
    var list := Candidates(commands, lowPrefix);
    CandidatesHead(commands, lowPrefix);
    CandidatesMembers(commands, lowPrefix);
    assert list == [] <==> forall i :: 0 <= i < |commands| ==> !Matches(lowPrefix, commands[i]) by {
      if list == [] {
        forall i | 0 <= i < |commands| ensures !Matches(lowPrefix, commands[i]) {
          assert commands[i] in commands;
        }
      }
    }
    if list != [] then Some(list[0]) else None
  }

  /**
   * Lines 233-249: the widget's own completion when it is non-empty,
   * otherwise the first matching command name, otherwise `None`.
   */
  function ResolveCommandCompletion(commands: seq<string>, prefix: string, widget: string): (r: Option<string>)
    ensures widget != "" ==> r == Some(widget)
    ensures widget == "" && r.Some? ==> exists i :: FirstMatchAt(commands, Lower(prefix), i) && commands[i] == r.value
    ensures widget == "" ==>
      (r.None? <==> forall i :: 0 <= i < |commands| ==> !Matches(Lower(prefix), commands[i]))
  {
    var top := TopCandidate(commands, Lower(prefix));
    if widget == "" then top else Some(widget)
  }

  /** A needle whose first character the text lacks occurs nowhere in it. */
  lemma MissingHead(hay: string, needle: string, i: int)
    requires needle != [] && needle[0] !in hay
    ensures !OccursAt(hay, needle, i)
  {
    if 0 <= i <= |hay| - |needle| {
      assert hay[i..i + |needle|][0] == hay[i];
    }
  }

  /** Typing `YL` over `sphere`, `cube`, `cylinder` leaves only `cylinder`, matched mid-word. */
  lemma FilterExample()
    ensures Candidates(["sphere", "cube", "cylinder"], Lower("YL")) == ["cylinder"]
    ensures ResolveCommandCompletion(["sphere", "cube", "cylinder"], "YL", "") == Some("cylinder")
  {
    var p := Lower("YL");
    assert p == "yl";
    assert Lower("cylinder") == "cylinder";
    assert OccursAt("cylinder", p, 1);
    assert Lower("sphere") == "sphere";
    assert Lower("cube") == "cube";
    assert 'y' !in "sphere" && 'y' !in "cube";
    forall i | 0 <= i <= 4 ensures !OccursAt("sphere", p, i) {
      MissingHead("sphere", p, i);
    }
    forall i | 0 <= i <= 2 ensures !OccursAt("cube", p, i) {
      MissingHead("cube", p, i);
    }
  }
}
