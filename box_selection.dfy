/**
 * The box-selection screen of the client (`Home`): the user holds `credits`,
 * picks exactly that many distinct mystery boxes and submits them.
 *
 * The pure part (what a box looks like, whether it can be clicked, whether the
 * submit button is enabled, the display order) is written as functions; the two
 * event handlers, which update component state step by step, are methods of the
 * class `Controller`. Network results are parameters of the handlers.
 */
module Selection {
  import opened Wrappers
  import opened Text

  /** A mystery box as the server reports it; `selectedBy` is the owner's id, if any. */
  datatype Box = Box(id: int, selectedBy: Option<int>)

  /** The success notice shown after a submission, with the boxes that were sent. */
  datatype Toast = Toast(message: string, boxes: seq<int>)

  /** `box.selected_by` read as a JavaScript condition: no owner, or owner id 0, is falsy. */
  predicate Taken(b: Box) {
    b.selectedBy.Some? && b.selectedBy.value != 0
  }

  predicate NoDuplicates(s: seq<int>) {
    forall i, j :: 0 <= i < j < |s| ==> s[i] != s[j]
  }

  // ---------------------------------------------------------------------------
  // Selection list operations

  /** `s.filter((id) => id !== x)`: every occurrence of `x` is dropped, the rest keeps its order. */
  function Without(s: seq<int>, x: int): (r: seq<int>)
    ensures forall y :: y in r <==> y in s && y != x
    ensures |r| <= |s|
    ensures x !in s ==> r == s
    ensures NoDuplicates(s) ==> NoDuplicates(r)
    ensures NoDuplicates(s) && x in s ==> |r| == |s| - 1
    ensures multiset(r) == multiset(s)[x := 0]
  {
    if s == [] then []
    else if s[0] == x then
      assert s == [s[0]] + s[1..];
      Without(s[1..], x)
    else
      var rest := Without(s[1..], x);
      NoDuplicatesCons(s[0], s[1..]);
      NoDuplicatesCons(s[0], rest);
      assert s == [s[0]] + s[1..];
      [s[0]] + rest
  }

  lemma NoDuplicatesCons(a: int, t: seq<int>)
    ensures NoDuplicates([a] + t) <==> a !in t && NoDuplicates(t)
  {
    var s := [a] + t;
    if NoDuplicates(s) {
      forall i, j | 0 <= i < j < |t| ensures t[i] != t[j] {
        assert s[i + 1] == t[i] && s[j + 1] == t[j];
      }
      forall i | 0 <= i < |t| ensures t[i] != a {
        assert s[0] == a && s[i + 1] == t[i];
      }
    }
  }

  /** Removing what was just appended gives back the list as it was. */
  lemma {:induction false} WithoutAppended(s: seq<int>, x: int)
    requires x !in s
    ensures Without(s + [x], x) == s
  {
    if s == [] {
      assert Without([x], x) == Without([], x);
    } else {
      assert (s + [x])[1..] == s[1..] + [x];
      WithoutAppended(s[1..], x);
    }
  }

  /** The filter works element by element: filtering a concatenation filters each part, in order. */
  lemma {:induction false} WithoutConcat(a: seq<int>, b: seq<int>, x: int)
    ensures Without(a + b, x) == Without(a, x) + Without(b, x)
  {
    if a == [] {
      assert a + b == b;
    } else {
      assert (a + b)[1..] == a[1..] + b;
      WithoutConcat(a[1..], b, x);
    }
  }

  /** Removing the one occurrence of `x` closes the gap: the ids before and after it stay in order. */
  lemma WithoutSplit(a: seq<int>, x: int, b: seq<int>)
    requires x !in a && x !in b
    ensures Without(a + [x] + b, x) == a + b
  {
    assert Without([x], x) == Without([x][1..], x) == [];
    WithoutConcat(a, [x], x);
    assert Without(a + [x], x) == a;
    WithoutConcat(a + [x], b, x);
  }

  /**
   * Deselecting the box at position `i` of a selection without duplicates
   * removes exactly that position; the other picks keep their click order.
   */
  lemma ToggledRemovesAt(credits: nat, sel: seq<int>, i: int)
    requires NoDuplicates(sel) && 0 <= i < |sel|
    ensures Toggled(credits, sel, sel[i]) == sel[..i] + sel[i + 1..]
  {
    var before, after := sel[..i], sel[i + 1..];
    assert sel == before + [sel[i]] + after;
    forall j | 0 <= j < |before| ensures before[j] != sel[i] {
      assert before[j] == sel[j];
    }
    forall j | 0 <= j < |after| ensures after[j] != sel[i] {
      assert after[j] == sel[i + 1 + j];
    }
    WithoutSplit(before, sel[i], after);
  }

  /**
   * The selection after `handleBoxSelect` handles a click on box `id`:
   * a selected box is deselected; an unselected one is appended only while
   * fewer than `credits` boxes are selected; otherwise nothing changes.
   */
  function Toggled(credits: nat, sel: seq<int>, id: int): (r: seq<int>)
    ensures id in r <==> id !in sel && |sel| < credits
    ensures forall y :: y != id ==> (y in r <==> y in sel)
    ensures NoDuplicates(sel) ==> NoDuplicates(r)
    ensures |sel| <= credits ==> |r| <= credits
    ensures id !in sel && |sel| >= credits ==> r == sel
    ensures id !in sel && |sel| < credits ==> r == sel + [id]
    ensures id in sel ==> multiset(r) == multiset(sel)[id := 0]
  {
    if id in sel then Without(sel, id)
    else if |sel| < credits then sel + [id]
    else sel
  }

  // ---------------------------------------------------------------------------
  // Progress messages

  const AllSelectedMessage := "All boxes selected! You can now submit."
  const SubmitFailedError := "Failed to submit selection"
  const LoadBoxesFailedError := "Failed to load mystery boxes"

  /** The message after appending a box: singular only for exactly one box left. */
  function RemainingMessage(n: int): string {
    "Please select " + IntToString(n) + " more " + (if n == 1 then "box" else "boxes")
  }

  /** The message after removing a box: always plural. */
  function RemovalMessage(n: int): string {
    "Please select " + IntToString(n) + " more boxes"
  }

  function ExactCountError(n: int): string {
    "Please select exactly " + IntToString(n) + " boxes before submitting"
  }

  function SubmittedMessage(count: int, remainingCredits: int): string {
    "Successfully submitted " + IntToString(count) + " boxes! Your remaining credits: " + IntToString(remainingCredits)
  }

  /**
   * The progress card's text: the stored message, or while that is empty the
   * fallback prompt naming how many picks are missing. It is never blank.
   */
  function DisplayedMessage(message: string, credits: nat, count: nat): (s: string)
    ensures s != ""
    ensures message != "" ==> s == message
    ensures message == "" && count <= credits ==> s == "Select " + NatToString(credits - count) + " more boxes"
  {
    if message != "" then message else "Select " + IntToString(credits - count) + " more boxes"
  }

  /**
   * The progress message after a click on box `id`; `current` is the message
   * before the click, kept when the click changes nothing. On a list without
   * duplicates the number it reports is exactly the number of picks still
   * missing from the new selection.
   */
  function ToggleMessage(credits: nat, sel: seq<int>, id: int, current: string): (m: string)
    ensures NoDuplicates(sel) && id in sel ==>
      m == RemovalMessage(credits - |Toggled(credits, sel, id)|)
    ensures id !in sel && |sel| < credits ==>
      m == if |Toggled(credits, sel, id)| == credits then AllSelectedMessage
           else RemainingMessage(credits - |Toggled(credits, sel, id)|)
    ensures id !in sel && |sel| >= credits ==> m == current
  {
    if id in sel then
      RemovalMessage(credits - (|sel| - 1))
    else if |sel| < credits then
      var remaining := credits - (|sel| + 1);
      if remaining > 0 then RemainingMessage(remaining) else AllSelectedMessage
    else
      current
  }

  /**
   * Selecting an unselected box and clicking it again restores the selection
   * exactly; the message then asks for the missing boxes, in the plural.
   */
  lemma ToggleTwiceRestores(credits: nat, sel: seq<int>, id: int, current: string)
    requires id !in sel && |sel| < credits
    ensures Toggled(credits, Toggled(credits, sel, id), id) == sel
    ensures ToggleMessage(credits, Toggled(credits, sel, id), id, current) == RemovalMessage(credits - |sel|)
  {
    WithoutAppended(sel, id);
  }

  // ---------------------------------------------------------------------------
  // What the grid and the submit button show

  /** The box button is enabled unless the box is taken or the quota is full and it is not one of the picks. */
  predicate BoxClickable(b: Box, sel: seq<int>, credits: nat): (r: bool)
    ensures r <==> !Taken(b) && (|sel| < credits || b.id in sel)
  {
    !(Taken(b) || (|sel| >= credits && b.id !in sel))
  }

  /** A free box is clickable exactly when clicking it changes the selection. */
  lemma ClickableIffEffective(b: Box, sel: seq<int>, credits: nat)
    requires !Taken(b)
    ensures BoxClickable(b, sel, credits) <==> Toggled(credits, sel, b.id) != sel
  {
  }

  /** The submit button's `disabled` expression, negated. */
  predicate SubmitEnabled(sel: seq<int>, credits: nat, isLoading: bool): (r: bool)
    ensures r <==> |sel| == credits && !isLoading
  {
    !(|sel| != credits || isLoading)
  }

  datatype Theme = Green | Black | GreenBlack

  /** The `switch (boxColor)` of the style function: any other colour string has no theme. */
  function ParseTheme(color: string): Option<Theme> {
    if color == "green" then Some(Green)
    else if color == "black" then Some(Black)
    else if color == "green-black" then Some(GreenBlack)
    else None
  }

  /** Which of the style classes a box gets (the class strings themselves are styling). */
  datatype Look = Locked | Highlighted | Themed(theme: Theme) | Plain

  datatype Icon = Lock | Sparkle | Gift

  /** Taken beats selected, selected beats the admin-chosen theme, the theme beats the default. */
  function BoxLook(b: Box, sel: seq<int>, color: string): (l: Look)
    ensures l == Locked <==> Taken(b)
    ensures l == Highlighted <==> !Taken(b) && b.id in sel
    ensures l.Themed? <==> !Taken(b) && b.id !in sel && ParseTheme(color).Some?
    ensures l.Themed? ==> ParseTheme(color) == Some(l.theme)
  {
    if Taken(b) then Locked
    else if b.id in sel then Highlighted
    else match ParseTheme(color)
      case Some(t) => Themed(t)
      case None => Plain
  }

  function BoxIcon(b: Box, sel: seq<int>): (i: Icon)
    ensures i == Lock <==> Taken(b)
    ensures i == Sparkle <==> !Taken(b) && b.id in sel
    ensures i == Gift <==> !Taken(b) && b.id !in sel
  {
    if Taken(b) then Lock else if b.id in sel then Sparkle else Gift
  }

  /** The icon follows the same priority as the style, whatever the theme. */
  lemma IconFollowsLook(b: Box, sel: seq<int>, color: string)
    ensures BoxIcon(b, sel) == Lock <==> BoxLook(b, sel, color) == Locked
    ensures BoxIcon(b, sel) == Sparkle <==> BoxLook(b, sel, color) == Highlighted
    ensures BoxIcon(b, sel) == Gift <==> BoxLook(b, sel, color) in {Plain, Themed(Green), Themed(Black), Themed(GreenBlack)}
  {
  }

  // ---------------------------------------------------------------------------
  // Display order: `[...boxes].sort((a, b) => a.id - b.id)`

  predicate SortedById(bs: seq<Box>) {
    forall i, j :: 0 <= i < j < |bs| ==> bs[i].id <= bs[j].id
  }

  lemma SortedCons(h: Box, t: seq<Box>)
    requires SortedById(t)
    requires forall x | x in t :: h.id <= x.id
    ensures SortedById([h] + t)
  {
  }

  /** Inserts `b` after every box whose id is not larger, which keeps equal ids in input order. */
  function InsertById(b: Box, bs: seq<Box>): (r: seq<Box>)
    requires SortedById(bs)
    ensures SortedById(r)
    ensures multiset(r) == multiset(bs) + multiset{b}
  {
    if bs == [] || b.id < bs[0].id then
      assert forall x | x in bs :: b.id <= x.id;
      SortedCons(b, bs);
      [b] + bs
    else
      var rest := InsertById(b, bs[1..]);
      assert bs == [bs[0]] + bs[1..];
      forall x | x in rest
        ensures bs[0].id <= x.id
      {
        assert x in multiset(rest);
        if x != b {
          assert x in multiset(bs[1..]);
        }
      }
      SortedCons(bs[0], rest);
      [bs[0]] + rest
  }

  /** The grid order: ascending id, a permutation of the fetched boxes. */
  function SortById(bs: seq<Box>): (r: seq<Box>)
    ensures SortedById(r)
    ensures multiset(r) == multiset(bs)
  {
    if bs == [] then []
    else
      assert bs == bs[..|bs| - 1] + [bs[|bs| - 1]];
      InsertById(bs[|bs| - 1], SortById(bs[..|bs| - 1]))
  }

  // ---------------------------------------------------------------------------
  // The component state and its two handlers

  class Controller {
    /** `user?.credits || 0`: how many boxes must be picked. */
    var credits: nat
    /** `selectedBoxes`, in click order. */
    var selection: seq<int>
    var message: string
    var error: Option<string>
    var isLoading: bool
    var boxes: seq<Box>
    var boxColor: string
    var toast: Option<Toast>

    ghost predicate Valid()
      reads this
    {
      NoDuplicates(selection) && |selection| <= credits
    }

    /** The state on mount: nothing selected, no message, the default colour "green". */
    constructor (credits: nat)
      ensures Valid()
      ensures this.credits == credits && selection == [] && message == ""
      ensures error == None && !isLoading && boxes == [] && boxColor == "green" && toast == None
    {
      this.credits := credits;
      selection := [];
      message := "";
      error := None;
      isLoading := false;
      boxes := [];
      boxColor := "green";
      toast := None;
    }

    function SubmitButtonEnabled(): (r: bool)
      reads this
      ensures r <==> |selection| == credits && !isLoading
      ensures r ==> selection != [] || credits == 0
    {
      SubmitEnabled(selection, credits, isLoading)
    }

    function Clickable(b: Box): (r: bool)
      reads this
      ensures r ==> !Taken(b)
      ensures !Taken(b) ==> (r <==> Toggled(credits, selection, b.id) != selection)
    {
      BoxClickable(b, selection, credits)
    }

    /** `handleBoxSelect`: one click on box `boxId`. */
    method HandleBoxSelect(boxId: int)
      requires Valid()
      modifies this`selection, this`message
      ensures Valid()
      ensures selection == Toggled(credits, old(selection), boxId)
      ensures message == ToggleMessage(credits, old(selection), boxId, old(message))
      ensures old(Clickable(Box(boxId, None))) <==> selection != old(selection)
    {
      ClickableIffEffective(Box(boxId, None), selection, credits);
      var required := credits;
      if boxId in selection {
        message := RemovalMessage(required - (|selection| - 1));
        selection := Without(selection, boxId);
      } else if |selection| < required {
        var remaining := required - (|selection| + 1);
        if remaining > 0 {
          message := RemainingMessage(remaining);
        } else {
          message := AllSelectedMessage;
        }
        selection := selection + [boxId];
      }
    }

    /** `loadBoxes`: a failed fetch keeps the old list and reports an error. */
    method LoadBoxes(fetched: Option<seq<Box>>)
      modifies this`boxes, this`error
      ensures fetched.Some? ==> boxes == fetched.value && error == old(error)
      ensures fetched.None? ==> boxes == old(boxes) && error == Some(LoadBoxesFailedError)
    {
      match fetched
      case Some(bs) => boxes := bs;
      case None => error := Some(LoadBoxesFailedError);
    }

    /**
     * `handleSubmit`. `submitOk` is the outcome of the submission request,
     * `reloaded` that of the box reload after it and `refreshedCredits` the
     * credit balance of the refreshed user record (`None` when the refresh
     * failed, which the session swallows; a request that throws before it is
     * sent, as with no user record loaded, is a `submitOk` of false). `sent`
     * is the selection that passed the local count test and was handed to
     * the submission request, or `None` when that test refused it.
     */
    method HandleSubmit(submitOk: bool, reloaded: Option<seq<Box>>, refreshedCredits: Option<nat>)
      returns (sent: Option<seq<int>>)
      requires Valid()
      modifies this
      ensures Valid()
      ensures sent.Some? <==> |old(selection)| == old(credits)
      ensures old(SubmitButtonEnabled()) ==> sent.Some?
      ensures sent.None? ==>
        && error == Some(ExactCountError(old(credits)))
        && selection == old(selection) && message == old(message) && credits == old(credits)
        && isLoading == old(isLoading) && boxes == old(boxes) && toast == old(toast)
      ensures sent.Some? ==> sent.value == old(selection) && !isLoading
      ensures sent.Some? && submitOk ==>
        && selection == [] && message == ""
        && credits == refreshedCredits.GetOr(old(credits))
        && toast == Some(Toast(SubmittedMessage(old(credits), 0), old(selection)))
        && (reloaded.Some? ==> boxes == reloaded.value && error == old(error))
        && (reloaded.None? ==> boxes == old(boxes) && error == Some(LoadBoxesFailedError))
        && DisplayedMessage(message, credits, |selection|) == "Select " + IntToString(credits) + " more boxes"
      ensures sent.Some? && !submitOk ==>
        && error == Some(SubmitFailedError)
        && selection == old(selection) && message == old(message) && credits == old(credits)
        && boxes == old(boxes) && toast == old(toast)
      ensures boxColor == old(boxColor)
    {
      var required := credits;
      if |selection| != required {
        error := Some(ExactCountError(required));
        return None;
      }
      isLoading := true;
      sent := Some(selection);
      if submitOk {
        var submitted := selection;
        var creditsBefore := credits;
        LoadBoxes(reloaded);
        selection := [];
        if refreshedCredits.Some? {
          credits := refreshedCredits.value;
        }
        message := "";
        toast := Some(Toast(SubmittedMessage(required, creditsBefore - required), submitted));
      } else {
        error := Some(SubmitFailedError);
      }
      isLoading := false;
    }
  }
}
