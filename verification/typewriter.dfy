/** The typewriter that reveals a model reply one character per tick. The
    state is the text prop and the two pieces of component state; a text
    update is handled as the reset effect sees it, and a tick is one timer
    firing. Timer scheduling and rendering are not modelled. Lengths and
    indices count Dafny characters (Unicode scalar values), where JavaScript
    counts UTF-16 code units; the two agree on text inside the Basic
    Multilingual Plane. */
module Typewriter {
  import opened Basics

  datatype TypeState = TypeState(text: string, displayed: string, index: nat)

  /** `speed || (len > 500 ? 1 : (len > 100 ? 2 : 5))`: an absent or zero
      speed falls back to a length-based delay. */
  function DynamicSpeed(speed: Option<int>, len: nat): (d: int)
    ensures speed.Some? && speed.value != 0 ==> d == speed.value
    ensures (speed.None? || speed.value == 0) ==>
      && (d == 1 <==> len > 500)
      && (d == 2 <==> 100 < len <= 500)
      && (d == 5 <==> len <= 100)
  {
    if speed.Some? && speed.value != 0 then speed.value
    else if len > 500 then 1
    else if len > 100 then 2
    else 5
  }

  /** Without an explicit speed, a longer text never types slower. */
  lemma LongerTypesFaster(a: nat, b: nat)
    requires a <= b
    ensures DynamicSpeed(None, b) <= DynamicSpeed(None, a)
  {
  }

  /** The component as first mounted with a text. */
  function Mounted(text: string): TypeState {
    TypeState(text, "", 0)
  }

  /** The blinking cursor shows while characters remain. */
  predicate Cursor(s: TypeState) {
    s.index < |s.text|
  }

  /** The typing effect reports completion once everything is shown, but
      never for an empty text. */
  predicate Completes(s: TypeState) {
    s.index >= |s.text| && |s.text| > 0
  }

  /** One timer firing: the next character is appended and the index moves on. */
  function Tick(s: TypeState): (s': TypeState)
    ensures s'.text == s.text
    ensures Cursor(s) ==> s'.index == s.index + 1 && s'.displayed == s.displayed + [s.text[s.index]]
    ensures !Cursor(s) ==> s' == s
  {
    if s.index < |s.text| then s.(displayed := s.displayed + [s.text[s.index]], index := s.index + 1)
    else s
  }

  function StartsWith(t: string, p: string): bool {
    |p| <= |t| && t[..|p|] == p
  }

  /** A new text prop: progress is kept when the new text still starts with
      what is shown, or is empty; otherwise typing restarts from nothing. */
  function SetText(s: TypeState, t: string): (s': TypeState)
    ensures s'.text == t
    ensures (|t| > 0 && !StartsWith(t, s.displayed)) ==> s'.displayed == "" && s'.index == 0
    ensures !(|t| > 0 && !StartsWith(t, s.displayed)) ==> s'.displayed == s.displayed && s'.index == s.index
  {
    if |t| > 0 && !StartsWith(t, s.displayed) then TypeState(t, "", 0)
    else s.(text := t)
  }

  /** What is shown is exactly the first `index` characters of the text. */
  predicate Inv(s: TypeState) {
    s.index <= |s.text| && s.displayed == s.text[..s.index]
  }

  lemma MountedInv(text: string)
    ensures Inv(Mounted(text)) && (Cursor(Mounted(text)) <==> text != "")
  {
  }

  lemma TickKeepsInv(s: TypeState)
    requires Inv(s)
    ensures Inv(Tick(s))
  {
    if s.index < |s.text| {
      assert s.text[..s.index + 1] == s.text[..s.index] + [s.text[s.index]];
    }
  }

  /** A text update keeps the invariant exactly when the new text is non-empty
      or nothing had been typed yet: clearing the text leaves the old
      characters on screen. */
  lemma SetTextInv(s: TypeState, t: string)
    requires Inv(s)
    ensures Inv(SetText(s, t)) <==> (t != "" || s.index == 0)
  {
    if t == "" && s.index > 0 {
      assert SetText(s, t).index > |t|;
    }
  }

  /** A streamed extension of the text never restarts the typing. */
  lemma ExtensionKeepsProgress(s: TypeState, more: string)
    requires Inv(s)
    ensures SetText(s, s.text + more).displayed == s.displayed
    ensures SetText(s, s.text + more).index == s.index
  {
    assert (s.text + more)[..|s.displayed|] == s.displayed;
  }

  /** A reply that does not start with what is shown restarts from nothing. */
  lemma NewReplyRestarts(s: TypeState, t: string)
    requires |t| > 0 && |s.displayed| > 0 && t[0] != s.displayed[0]
    ensures SetText(s, t) == Mounted(t)
  {
  }

  function TickN(s: TypeState, n: nat): TypeState
    decreases n
  {
    if n == 0 then s else TickN(Tick(s), n - 1)
  }

  /** From any consistent state, `|text| - index` ticks show the whole text,
      hide the cursor and report completion for a non-empty text; further
      ticks change nothing. */
  lemma {:induction false} TypesOut(s: TypeState)
    requires Inv(s)
    ensures var f := TickN(s, |s.text| - s.index);
      && f.displayed == s.text
      && f.index == |s.text|
      && !Cursor(f)
      && (Completes(f) <==> s.text != "")
      && Tick(f) == f
    decreases |s.text| - s.index
  {
    if s.index < |s.text| {
      TickKeepsInv(s);
      TypesOut(Tick(s));
    } else {
      assert s.text[..s.index] == s.text;
    }
  }
}
