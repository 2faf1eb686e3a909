/**
 * The state machine behind the `Picker` composable: which page of symbols is
 * shown (consecutive code points from an offset, or the recently picked
 * symbols), the navigation intents that move the offset, and the bounded
 * most-recently-used list that a double tap updates in place.
 */
module Picker {
  import opened Wrappers
  import opened Symbols

  /** The offset a fresh picker starts at. */
  const InitialOffset: nat := 0x1F97F
  /** Where "jump to emoji" goes: the start of the Emoticons block. */
  const EmojiOffset: nat := 0x1F600
  /** A left/right step and a fast step, both literal in the source. */
  const Step: nat := 25
  const FastStep: nat := 250
  /** The recents list drops its last entry once it grows past this. */
  const RecentsCapacity: nat := 49
  /** The selection a fresh picker starts with: a single space. */
  const InitialSelection: Symbol := [0x20]

  /** How a horizontal drag ended: past the threshold to the right, to the left, or neither. */
  datatype DragEnd = DraggedRight | DraggedLeft | BelowThreshold

  // ---------------------------------------------------------------------------
  // Pages

  /** The browse page: the `total` consecutive code points starting at `offset`. */
  function BrowsePage(offset: nat, total: nat): seq<Symbol>
    requires offset + total <= CodePointLimit
  {
    seq(total, i requires 0 <= i < total => [offset + i])
  }

  /** The recents page: the recents list padded with empty strings and cut to `total` cells. */
  function RecentsPage(recents: seq<Symbol>, total: nat): (page: seq<Symbol>)
    ensures |page| == total
    ensures forall i :: 0 <= i < |recents| && i < total ==> page[i] == recents[i]
    ensures forall i :: |recents| <= i < total ==> page[i] == Empty
  {
    (recents + seq(total, _ => Empty))[..total]
  }

  /** What `fillPicker(offset, recentMode)` puts on screen. */
  function Page(offset: nat, total: nat, recentMode: bool, recents: seq<Symbol>): seq<Symbol>
    requires offset + total <= CodePointLimit
  {
    if recentMode then RecentsPage(recents, total) else BrowsePage(offset, total)
  }

  /** `(offset - step).coerceAtLeast(0)`. */
  function Back(offset: nat, step: nat): (r: nat)
  {
    if offset >= step then offset - step else 0
  }

  lemma BackIsClampedDifference(offset: nat, step: nat)
    ensures Back(offset, step) <= offset
    ensures Back(offset, step) == 0 || Back(offset, step) == offset - step
    ensures Back(offset, step) >= offset - step
  {
  }

  // ---------------------------------------------------------------------------
  // The recents list, as values

  /** No symbol occurs twice. */
  predicate NoDuplicates(s: seq<Symbol>) {
    forall i, j :: 0 <= i < j < |s| ==> s[i] != s[j]
  }

  /** `MutableList.remove(element)`: the list without the first occurrence of `x`. */
  function RemoveFirst(s: seq<Symbol>, x: Symbol): (r: seq<Symbol>)
    ensures x in s ==> |r| == |s| - 1
    ensures x !in s ==> r == s
    ensures forall t :: t in r ==> t in s
  {
    if s == [] then []
    else if s[0] == x then s[1..]
    else [s[0]] + RemoveFirst(s[1..], x)
  }

  /** `remove` takes away exactly one occurrence of `x`, and only when there is one. */
  lemma {:induction false} RemoveFirstMultiset(s: seq<Symbol>, x: Symbol)
    ensures multiset(RemoveFirst(s, x)) == multiset(s) - multiset{x}
  {
    if s != [] {
      assert s == [s[0]] + s[1..];
      if s[0] != x {
        RemoveFirstMultiset(s[1..], x);
      }
    }
  }

  /**
   * A double tap on `s` in browse mode: remove `s`, insert it at the front, and
   * drop the last entry if the list is now longer than the capacity.
   */
  function Recorded(recents: seq<Symbol>, s: Symbol): seq<Symbol>
  {
    var bumped := [s] + RemoveFirst(recents, s);
    if |bumped| > RecentsCapacity then bumped[..|bumped| - 1] else bumped
  }

  /** Recording each of `picks` in turn. */
  function RecordedAll(recents: seq<Symbol>, picks: seq<Symbol>): seq<Symbol>
    decreases |picks|
  {
    if picks == [] then recents else RecordedAll(Recorded(recents, picks[0]), picks[1..])
  }

  /** `picks`, the last one first. */
  function NewestFirst(picks: seq<Symbol>): (r: seq<Symbol>)
    ensures |r| == |picks|
  {
    seq(|picks|, i requires 0 <= i < |picks| => picks[|picks| - 1 - i])
  }

  /** Removing the first occurrence at index `k` keeps every other entry in order. */
  lemma {:induction false} RemoveFirstSplit(s: seq<Symbol>, x: Symbol, k: nat)
    requires k < |s| && s[k] == x && x !in s[..k]
    ensures RemoveFirst(s, x) == s[..k] + s[k + 1..]
  {
    if k == 0 {
      assert s[..0] + s[1..] == s[1..];
    } else {
      var t := s[1..];
      assert s[0] != x by { assert s[..k][0] == s[0]; }
      assert t[..k - 1] == s[..k][1..];
      RemoveFirstSplit(t, x, k - 1);
      assert t[k..] == s[k + 1..];
      calc {
        RemoveFirst(s, x);
        [s[0]] + RemoveFirst(t, x);
        [s[0]] + (s[..k][1..] + s[k + 1..]);
        s[..k] + s[k + 1..];
      }
    }
  }

  /** On a list without duplicates, `remove` takes every occurrence away and keeps the list duplicate-free. */
  lemma {:induction false} RemoveFirstNoDuplicates(s: seq<Symbol>, x: Symbol)
    requires NoDuplicates(s)
    ensures NoDuplicates(RemoveFirst(s, x))
    ensures x !in RemoveFirst(s, x)
  {
    if s != [] {
      assert NoDuplicates(s[1..]);
      if s[0] == x {
        assert forall j :: 0 <= j < |s[1..]| ==> s[1..][j] == s[j + 1];
      } else {
        RemoveFirstNoDuplicates(s[1..], x);
        var rest := RemoveFirst(s[1..], x);
        assert s[0] !in s[1..];
        var r := [s[0]] + rest;
        forall i, j | 0 <= i < j < |r| ensures r[i] != r[j] {
          if i == 0 {
            assert r[j] == rest[j - 1];
          } else {
            assert r[i] == rest[i - 1] && r[j] == rest[j - 1];
          }
        }
      }
    }
  }

  /** Shape of a recorded list: `s` at the front, then the other entries in order, at most one dropped from the end. */
  lemma RecordedShape(recents: seq<Symbol>, s: Symbol)
    ensures var n := if s in recents then |recents| else |recents| + 1;
            |Recorded(recents, s)| == (if n > RecentsCapacity then n - 1 else n)
    ensures Recorded(recents, s)[0] == s
    ensures Recorded(recents, s)[1..] == RemoveFirst(recents, s)[..|Recorded(recents, s)| - 1]
    ensures forall t :: t in Recorded(recents, s) ==> t == s || t in recents
  {
  }

  /** A duplicate-free list within capacity stays duplicate-free and within capacity. */
  lemma RecordedKeepsInvariant(recents: seq<Symbol>, s: Symbol)
    requires NoDuplicates(recents) && |recents| <= RecentsCapacity
    ensures NoDuplicates(Recorded(recents, s))
    ensures |Recorded(recents, s)| <= RecentsCapacity
  {
    RemoveFirstNoDuplicates(recents, s);
    var bumped := [s] + RemoveFirst(recents, s);
    forall i, j | 0 <= i < j < |bumped| ensures bumped[i] != bumped[j] {
      if i == 0 {
        assert bumped[j] == RemoveFirst(recents, s)[j - 1];
      } else {
        assert bumped[i] == RemoveFirst(recents, s)[i - 1];
        assert bumped[j] == RemoveFirst(recents, s)[j - 1];
      }
    }
  }

  /** Recording the same symbol twice in a row is the same as recording it once. */
  lemma RecordedIdempotent(recents: seq<Symbol>, s: Symbol)
    requires |recents| <= RecentsCapacity
    ensures Recorded(Recorded(recents, s), s) == Recorded(recents, s)
  {
  }

  /** A new symbol on a full list evicts the oldest entry. */
  lemma RecordedEvictsOldest(recents: seq<Symbol>, s: Symbol)
    requires |recents| == RecentsCapacity && s !in recents
    ensures Recorded(recents, s) == [s] + recents[..RecentsCapacity - 1]
  {
  }

  /** The capacity cut of a list: at most its first `RecentsCapacity` entries. */
  function Capped(s: seq<Symbol>): (r: seq<Symbol>)
    ensures |r| <= RecentsCapacity && |r| <= |s| && r == s[..|r|]
    ensures |s| <= RecentsCapacity ==> r == s
  {
    if |s| <= RecentsCapacity then s else s[..RecentsCapacity]
  }

  /** A symbol not yet in a list within capacity goes in front, pushing the rest along. */
  lemma RecordedFresh(recents: seq<Symbol>, p: Symbol)
    requires |recents| <= RecentsCapacity && p !in recents
    ensures Recorded(recents, p) == Capped([p] + recents)
  {
  }

  /** Capping after prepending to a capped list is the same as capping the whole. */
  lemma CappedPrepend(a: seq<Symbol>, b: seq<Symbol>)
    ensures Capped(a + Capped(b)) == Capped(a + b)
  {
  }

  lemma NewestFirstCons(p: Symbol, rest: seq<Symbol>, tail: seq<Symbol>)
    ensures NewestFirst([p] + rest) + tail == NewestFirst(rest) + ([p] + tail)
  {
  }

  /** After the first pick, the remaining picks are still distinct and not in the list. */
  lemma RestStaysFresh(recents: seq<Symbol>, picks: seq<Symbol>)
    requires picks != [] && NoDuplicates(picks)
    requires forall p :: p in picks ==> p !in recents
    ensures NoDuplicates(picks[1..])
    ensures forall q :: q in picks[1..] ==> q !in Capped([picks[0]] + recents)
  {
    var p, rest := picks[0], picks[1..];
    var next := Capped([p] + recents);
    forall q | q in rest ensures q !in next {
      var j :| 0 <= j < |rest| && rest[j] == q;
      assert picks[j + 1] == q;
      assert q !in [p] + recents;
      assert next == ([p] + recents)[..|next|];
    }
  }

  /**
   * Recording distinct symbols that are not yet in the list: the list becomes
   * the picks, newest first, followed by the old entries, cut to the capacity.
   */
  lemma {:induction false} RecordedAllDistinct(recents: seq<Symbol>, picks: seq<Symbol>)
    requires |recents| <= RecentsCapacity && NoDuplicates(picks)
    requires forall p :: p in picks ==> p !in recents
    ensures RecordedAll(recents, picks) == Capped(NewestFirst(picks) + recents)
    decreases |picks|
  {
    if picks != [] {
      var p, rest := picks[0], picks[1..];
      RecordedFresh(recents, p);
      RestStaysFresh(recents, picks);
      RecordedAllDistinct(Capped([p] + recents), rest);
      CappedPrepend(NewestFirst(rest), [p] + recents);
      assert picks == [p] + rest;
      NewestFirstCons(p, rest, recents);
    }
  }

  /** Recording 50 distinct symbols into an empty list keeps the last 49, newest first. */
  lemma FiftyDistinctPicks(picks: seq<Symbol>)
    requires |picks| == 50 && NoDuplicates(picks)
    ensures |RecordedAll([], picks)| == 49
    ensures RecordedAll([], picks)[0] == picks[49]
    ensures forall i :: 0 <= i < 49 ==> RecordedAll([], picks)[i] == picks[49 - i]
    ensures picks[0] !in RecordedAll([], picks)
  {
    RecordedAllDistinct([], picks);
    var r := RecordedAll([], picks);
    assert r == NewestFirst(picks)[..49];
  }

  /** Picking a smiley, a laughing face and the smiley again leaves the smiley, then the laughing face. */
  lemma RepeatedPick()
    ensures RecordedAll([], [[0x1F600], [0x1F602], [0x1F600]]) == [[0x1F600], [0x1F602]]
  {
  }

  /** Finds the first occurrence of `x`, as `remove` does before it shifts the rest down. */
  method FirstIndexOf(list: seq<Symbol>, x: Symbol) returns (k: nat)
    ensures k <= |list|
    ensures k < |list| ==> list[k] == x
    ensures x !in list[..k]
  {
    k := 0;
    while k < |list| && list[k] != x
      invariant k <= |list|
      invariant x !in list[..k]
    {
      k := k + 1;
    }
  }

  // ---------------------------------------------------------------------------
  // The picker's remembered state

  class PickerState {
    const columns: nat
    /** `columns * columns`, the number of cells on a page. */
    const total: nat
    var offset: nat
    /** The page on screen. */
    var symbols: seq<Symbol>
    /** Most recent first; changed in place by a double tap and by "clear". */
    var recents: seq<Symbol>
    var recentsMode: bool
    var isPicked: bool
    var selected: Symbol

    /** Every browse page the picker can show consists of valid code points. */
    ghost predicate Valid()
      reads this
    {
      total == columns * columns &&
      InitialOffset + total <= CodePointLimit &&
      offset + total <= CodePointLimit
    }

    /** The page is the one `fillPicker` computes from the current state. */
    ghost predicate Showing()
      reads this
      requires Valid()
    {
      symbols == Page(offset, total, recentsMode, recents)
    }

    /** The top bar enables the arrows and the emoji button only in browse mode with nothing picked. */
    predicate NavigationEnabled()
      reads this
    {
      !recentsMode && !isPicked
    }

    constructor (columns: nat)
      requires InitialOffset + columns * columns <= CodePointLimit
      ensures Valid() && this.columns == columns
      ensures offset == InitialOffset && symbols == [] && recents == []
      ensures !recentsMode && !isPicked && selected == InitialSelection
    {
      this.columns := columns;
      total := columns * columns;
      offset := InitialOffset;
      symbols := [];
      recents := [];
      recentsMode := false;
      isPicked := false;
      selected := InitialSelection;
    }

    /** `fillPicker(newOffset, recentMode)`: move to `newOffset` and recompute the page. */
    method FillPicker(newOffset: nat, recentMode: bool)
      requires Valid() && newOffset + total <= CodePointLimit
      modifies this`offset, this`symbols
      ensures Valid() && offset == newOffset
      ensures symbols == Page(newOffset, total, recentMode, recents)
      ensures !recentMode ==> |symbols| == total && forall i :: 0 <= i < total ==> symbols[i] == [newOffset + i]
      ensures recentMode ==> symbols == RecentsPage(recents, total)
    {
      offset := newOffset;
      if !recentMode {
        symbols := BrowsePage(newOffset, total);
      } else {
        symbols := RecentsPage(recents, total);
      }
    }

    /** The start-up effect: load the saved list (an absent one is empty) and fill the page. */
    method Load(saved: Option<seq<Symbol>>)
      requires Valid()
      modifies this`recents, this`offset, this`symbols
      ensures Valid() && Showing()
      ensures recents == saved.GetOr([]) && offset == old(offset)
    {
      recents := saved.GetOr([]);
      FillPicker(offset, recentsMode);
    }

    method FastBack()
      requires Valid() && NavigationEnabled()
      modifies this`offset, this`symbols
      ensures Valid() && Showing()
      ensures offset == Back(old(offset), FastStep) && symbols == BrowsePage(offset, total)
    {
      FillPicker(Back(offset, FastStep), recentsMode);
    }

    method Left()
      requires Valid() && NavigationEnabled()
      modifies this`offset, this`symbols
      ensures Valid() && Showing()
      ensures offset == Back(old(offset), Step) && symbols == BrowsePage(offset, total)
    {
      FillPicker(Back(offset, Step), recentsMode);
    }

    /** Moving forward has no upper clamp; the page past it must still be made of code points. */
    method Right()
      requires Valid() && NavigationEnabled()
      requires offset + Step + total <= CodePointLimit
      modifies this`offset, this`symbols
      ensures Valid() && Showing()
      ensures offset == old(offset) + Step && symbols == BrowsePage(offset, total)
    {
      FillPicker(offset + Step, recentsMode);
    }

    method FastForward()
      requires Valid() && NavigationEnabled()
      requires offset + FastStep + total <= CodePointLimit
      modifies this`offset, this`symbols
      ensures Valid() && Showing()
      ensures offset == old(offset) + FastStep && symbols == BrowsePage(offset, total)
    {
      FillPicker(offset + FastStep, recentsMode);
    }

    /** End of a horizontal drag: one step back or forward in browse mode, nothing in recents mode. */
    method EndDrag(drag: DragEnd)
      requires Valid()
      requires drag == DraggedLeft && !recentsMode ==> offset + Step + total <= CodePointLimit
      modifies this`offset, this`symbols
      ensures Valid()
      ensures recentsMode || drag == BelowThreshold ==> offset == old(offset) && symbols == old(symbols)
      ensures !recentsMode && drag == DraggedRight ==>
                offset == Back(old(offset), Step) && symbols == BrowsePage(offset, total)
      ensures !recentsMode && drag == DraggedLeft ==>
                offset == old(offset) + Step && symbols == BrowsePage(offset, total)
    {
      if !recentsMode {
        match drag
        case DraggedRight => FillPicker(Back(offset, Step), false);
        case DraggedLeft => FillPicker(offset + Step, false);
        case BelowThreshold =>
      }
    }

    /** Jump to the emoji block; the recents flag is left as it is. */
    method JumpToEmoji()
      requires Valid() && NavigationEnabled()
      modifies this`offset, this`symbols
      ensures Valid() && Showing()
      ensures offset == EmojiOffset && symbols == BrowsePage(EmojiOffset, total)
    {
      FillPicker(EmojiOffset, false);
    }

    /** Switch between browsing and recents, keeping the offset. */
    method ToggleRecents()
      requires Valid() && !isPicked
      modifies this`recentsMode, this`offset, this`symbols
      ensures Valid() && Showing()
      ensures recentsMode == !old(recentsMode) && offset == old(offset)
    {
      recentsMode := !recentsMode;
      FillPicker(offset, recentsMode);
    }

    /** The top bar's selected-symbol box: unpick. */
    method Unpick()
      modifies this`isPicked
      ensures !isPicked
    {
      isPicked := false;
    }

    /** A single tap on a cell: unpick as well. */
    method TapSymbol()
      modifies this`isPicked
      ensures !isPicked
    {
      Unpick();
    }

    /** The in-place list update of a double tap: `remove`, `add(0, …)`, then `removeLast()` past 49. */
    method Bump(s: Symbol)
      modifies this`recents
      ensures recents == Recorded(old(recents), s)
    {
      var k := FirstIndexOf(recents, s);
      if k < |recents| {
        RemoveFirstSplit(recents, s, k);
        recents := recents[..k] + recents[k + 1..];
      } else {
        assert recents[..k] == recents;
      }
      recents := [s] + recents;
      if |recents| > RecentsCapacity {
        recents := recents[..|recents| - 1];
      }
    }

    /**
     * A double tap commits a non-blank symbol: it becomes the picked selection,
     * goes to the front of the recents list unless it was tapped on the recents
     * page, and the picker returns to the browse page at the same offset.
     */
    method DoubleTap(s: Symbol)
      requires Valid()
      modifies this
      ensures Valid()
      ensures IsBlank(s) ==> unchanged(this)
      ensures !IsBlank(s) ==> isPicked && selected == s && !recentsMode && offset == old(offset)
      ensures !IsBlank(s) ==> recents == (if old(recentsMode) then old(recents) else Recorded(old(recents), s))
      ensures !IsBlank(s) ==> symbols == BrowsePage(offset, total) && Showing()
      ensures NoDuplicates(old(recents)) && |old(recents)| <= RecentsCapacity ==>
                NoDuplicates(recents) && |recents| <= RecentsCapacity
    {
      if !IsBlank(s) {
        isPicked := true;
        selected := s;
        if !recentsMode {
          if NoDuplicates(recents) && |recents| <= RecentsCapacity {
            RecordedKeepsInvariant(recents, s);
          }
          Bump(s);
        }
        recentsMode := false;
        FillPicker(offset, recentsMode);
      }
    }

    /** Empty the recents list and refill the page at the same offset and mode. */
    method ClearRecents()
      requires Valid()
      modifies this`recents, this`offset, this`symbols
      ensures Valid() && Showing()
      ensures recents == [] && offset == old(offset)
      ensures recentsMode ==> |symbols| == total && forall i :: 0 <= i < total ==> symbols[i] == Empty
    {
      recents := [];
      FillPicker(offset, recentsMode);
    }
  }
}
