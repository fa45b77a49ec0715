/** PresentationViewer: the key loop that moves through the slides, clamped
    at both ends, the title centring and the status line. The keys the
    console delivers are given as a finite sequence. */
module Viewer {
  import Wrappers
  import opened Seqs
  import opened Text
  import Parser
  import Banner
  import opened Input

  /** Q and Escape end the loop. */
  predicate IsQuit(key: ConsoleKey) {
    key == Q || key == ConsoleKey.Escape
  }

  /** Right arrow, Space and Enter go to the next slide. */
  predicate IsForward(key: ConsoleKey) {
    key == RightArrow || key == Spacebar || key == Enter
  }

  /** Left arrow and Backspace go to the previous slide. */
  predicate IsBack(key: ConsoleKey) {
    key == LeftArrow || key == Backspace
  }

  /** The slide a key that does not quit leads to from slide index. */
  function Step(index: int, count: int, key: ConsoleKey): (next: int)
    ensures 0 <= index < count ==> 0 <= next < count
    ensures next == index + 1 <==> IsForward(key) && index < count - 1
    ensures next == index - 1 <==> IsBack(key) && index > 0
    ensures next == index || next == index + 1 || next == index - 1
  {
    if IsForward(key) then
      if index < count - 1 then index + 1 else index
    else if IsBack(key) then
      if index > 0 then index - 1 else index
    else index
  }

  /** The slide shown when the loop ends: keys are taken in order until the
      first quit key or until none are left. */
  function FinalIndex(index: int, count: int, keys: seq<ConsoleKey>): (r: int)
    ensures 0 <= index < count ==> 0 <= r < count
    decreases |keys|
  {
    if keys == [] || IsQuit(keys[0]) then index
    else FinalIndex(Step(index, count, keys[0]), count, keys[1..])
  }

  /** The slides drawn again after the first one, in order: one each time a
      key changes the slide. */
  function Redrawn(index: int, count: int, keys: seq<ConsoleKey>): (r: seq<int>)
    ensures 0 <= index < count ==> forall k :: 0 <= k < |r| ==> 0 <= r[k] < count
    decreases |keys|
  {
    if keys == [] || IsQuit(keys[0]) then []
    else
      var next := Step(index, count, keys[0]);
      var head: seq<int> := if next != index then [next] else [];
      var tail := Redrawn(next, count, keys[1..]);
      assert forall k :: 0 <= k < |tail| ==> (head + tail)[|head| + k] == tail[k];
      head + tail
  }

  /** How many keys the loop reads: up to and including the first quit key. */
  function KeysRead(keys: seq<ConsoleKey>): (n: nat)
    ensures n <= |keys|
    decreases |keys|
  {
    if keys == [] then 0
    else if IsQuit(keys[0]) then 1
    else 1 + KeysRead(keys[1..])
  }

  /** Each redrawn slide differs by one from the slide drawn before it. */
  lemma {:induction false} RedrawnSteps(index: int, count: int, keys: seq<ConsoleKey>)
    ensures var r := Redrawn(index, count, keys);
      |r| > 0 ==> r[0] == index + 1 || r[0] == index - 1
    ensures var r := Redrawn(index, count, keys);
      forall k :: 0 < k < |r| ==> r[k] == r[k - 1] + 1 || r[k] == r[k - 1] - 1
    decreases |keys|
  {
    if keys != [] && !IsQuit(keys[0]) {
      var next := Step(index, count, keys[0]);
      RedrawnSteps(next, count, keys[1..]);
      var head: seq<int> := if next != index then [next] else [];
      var tail := Redrawn(next, count, keys[1..]);
      assert Redrawn(index, count, keys) == head + tail;
      forall k | 0 < k < |head + tail|
        ensures (head + tail)[k] == (head + tail)[k - 1] + 1 || (head + tail)[k] == (head + tail)[k - 1] - 1
      {
        IndexRight(head, tail, k);
        if k - 1 < |head| {
          IndexLeft(head, tail, k - 1);
        } else {
          IndexRight(head, tail, k - 1);
        }
      }
    }
  }

  /** Keys after the first quit key are never read. */
  lemma {:induction false} QuitEndsLoop(index: int, count: int, keys: seq<ConsoleKey>, rest: seq<ConsoleKey>)
    requires exists k :: 0 <= k < |keys| && IsQuit(keys[k])
    ensures FinalIndex(index, count, keys + rest) == FinalIndex(index, count, keys)
    ensures Redrawn(index, count, keys + rest) == Redrawn(index, count, keys)
    ensures KeysRead(keys + rest) == KeysRead(keys)
    decreases |keys|
  {
    assert (keys + rest)[0] == keys[0];
    if !IsQuit(keys[0]) {
      var k :| 0 <= k < |keys| && IsQuit(keys[k]);
      assert keys[1..][k - 1] == keys[k];
      assert (keys + rest)[1..] == keys[1..] + rest;
      QuitEndsLoop(Step(index, count, keys[0]), count, keys[1..], rest);
    }
  }

  /** A key that neither quits nor navigates changes nothing and draws
      nothing. */
  lemma IgnoredKey(index: int, count: int, key: ConsoleKey, rest: seq<ConsoleKey>)
    requires !IsQuit(key) && !IsForward(key) && !IsBack(key)
    ensures FinalIndex(index, count, [key] + rest) == FinalIndex(index, count, rest)
    ensures Redrawn(index, count, [key] + rest) == Redrawn(index, count, rest)
  {
    assert ([key] + rest)[1..] == rest;
  }

  class PresentationViewer {
    const presentation: Parser.Presentation
    var currentIndex: int

    /** The slide index is on a slide of the deck, or 0 for an empty deck. */
    predicate Valid()
      reads this
    {
      0 <= currentIndex && (|presentation.slides| == 0 ==> currentIndex == 0)
        && (|presentation.slides| > 0 ==> currentIndex < |presentation.slides|)
    }

    /** A new viewer shows the first slide. */
    constructor (presentation: Parser.Presentation)
      ensures this.presentation == presentation && currentIndex == 0
      ensures Valid()
    {
      this.presentation := presentation;
      currentIndex := 0;
    }

    /** The key loop. With no slides it draws nothing and reads no key.
        Otherwise it draws the current slide, then reads keys until a quit
        key, moving forward or back within the deck and drawing the slide
        again whenever it changes. read is the number of keys read and shown
        the slides drawn, in order. */
    method Run(keys: seq<ConsoleKey>) returns (read: nat, shown: seq<int>)
      requires Valid()
      modifies this`currentIndex
      ensures Valid()
      ensures |presentation.slides| == 0 ==> read == 0 && shown == [] && currentIndex == old(currentIndex)
      ensures |presentation.slides| > 0 ==>
        && read == KeysRead(keys)
        && currentIndex == FinalIndex(old(currentIndex), |presentation.slides|, keys)
        && shown == [old(currentIndex)] + Redrawn(old(currentIndex), |presentation.slides|, keys)
    {
      var count := |presentation.slides|;
      if count == 0 {
        return 0, [];
      }
      ghost var start := currentIndex;
      shown := [currentIndex];
      var i := 0;
      while i < |keys|
        invariant 0 <= i <= |keys|
        invariant 0 <= currentIndex < count
        invariant FinalIndex(currentIndex, count, keys[i..]) == FinalIndex(start, count, keys)
        invariant shown + Redrawn(currentIndex, count, keys[i..]) == [start] + Redrawn(start, count, keys)
        invariant i + KeysRead(keys[i..]) == KeysRead(keys)
      {
        var key := keys[i];
        assert keys[i..][0] == key && keys[i..][1..] == keys[i + 1..];
        if key == Q || key == ConsoleKey.Escape {
          AppendNil(shown);
          return i + 1, shown;
        }
        ghost var before := currentIndex;
        ghost var later := Redrawn(Step(before, count, key), count, keys[i + 1..]);
        if key == RightArrow || key == Spacebar || key == Enter {
          if currentIndex < count - 1 {
            currentIndex := currentIndex + 1;
            AppendAssoc(shown, [currentIndex], later);
            shown := shown + [currentIndex];
          }
        } else if key == LeftArrow || key == Backspace {
          if currentIndex > 0 {
            currentIndex := currentIndex - 1;
            AppendAssoc(shown, [currentIndex], later);
            shown := shown + [currentIndex];
          }
        }
        if currentIndex == before {
          NilAppend(later);
        }
        i := i + 1;
      }
      AppendNil(shown);
      read := |keys|;
    }
  }

  /** string.PadLeft: spaces in front up to totalWidth characters. */
  function PadLeft(s: string, totalWidth: int): (r: string)
    ensures |r| == if totalWidth <= |s| then |s| else totalWidth
    ensures r[|r| - |s|..] == s
    ensures forall i :: 0 <= i < |r| - |s| ==> r[i] == ' '
  {
    if totalWidth <= |s| then s else Spaces(totalWidth - |s|) + s
  }

  /** The viewer's Center: a text at least as wide as the width is kept,
      otherwise it is padded on the left by half the slack. */
  function Center(text: string, width: int): (r: string)
    ensures |r| >= |text| && r[|r| - |text|..] == text
    ensures forall i :: 0 <= i < |r| - |text| ==> r[i] == ' '
    ensures |text| >= width ==> r == text
    ensures |text| < width ==> |r| - |text| == (width - |text|) / 2
  {
    if |text| >= width then text
    else
      var padding := (width - |text|) / 2;
      PadLeft(text, |text| + padding)
  }

  /** The viewer centres titles exactly as the banner renderer centres its
      rows. */
  lemma CenterAgrees(text: string, width: int)
    ensures Center(text, width) == Banner.Center(text, width)
  {
    if |text| < width {
      var r := Center(text, width);
      var b := Banner.Center(text, width);
      assert |r| == |b|;
      forall i | 0 <= i < |r| ensures r[i] == b[i] {
        if i >= |r| - |text| {
          assert r[i] == r[|r| - |text|..][i - (|r| - |text|)];
          assert b[i] == b[|b| - |text|..][i - (|b| - |text|)];
        }
      }
    }
  }

  const StatusPrefix: string := " Slide "
  const StatusSuffix: string := "  [\U{2190} \U{2192}] Navigate  [Q] Quit "

  /** The slide's 1-based position over the number of slides. */
  function Fraction(position: nat, count: nat): string {
    ToDecimal(position) + "/" + ToDecimal(count)
  }

  /** The status bar text for slide index of count. */
  function StatusLine(index: nat, count: nat): (s: string)
    ensures |s| == |StatusPrefix| + |Fraction(index + 1, count)| + |StatusSuffix|
    ensures StartsWith(s, StatusPrefix)
    ensures s[|StatusPrefix|..|s| - |StatusSuffix|] == Fraction(index + 1, count)
  {
    MiddleOf(StatusPrefix, Fraction(index + 1, count), StatusSuffix);
    StatusPrefix + Fraction(index + 1, count) + StatusSuffix
  }

  /** The fraction reads back as its two numbers. */
  lemma FractionRoundTrip(position: nat, count: nat)
    ensures var parts := Split(Fraction(position, count), "/");
      |parts| == 2 && ParseDecimal(parts[0]) == Wrappers.Some(position) && ParseDecimal(parts[1]) == Wrappers.Some(count)
  {
    var a := ToDecimal(position);
    var b := ToDecimal(count);
    forall k | 0 <= k < |a| ensures a[k] != '/' { assert IsDigit(a[k]); }
    forall k | 0 <= k < |b| ensures b[k] != '/' { assert IsDigit(b[k]); }
    assert [a, b][1..] == [b];
    assert Join([a, b], "/") == Fraction(position, count);
    SplitJoinChar([a, b], '/');
  }

  /** The status line tells the slide and the count apart: different
      positions give different lines. */
  lemma StatusLineInjective(index: nat, count: nat, index': nat, count': nat)
    requires StatusLine(index, count) == StatusLine(index', count')
    ensures index == index' && count == count'
  {
    assert Fraction(index + 1, count) == Fraction(index' + 1, count');
    FractionRoundTrip(index + 1, count);
    FractionRoundTrip(index' + 1, count');
  }
}
