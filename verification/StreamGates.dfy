/** The two filters on streamed assistant text: one cuts it before a code
    fence, the other holds it back while it may still be the off-topic marker. */
module StreamGates {
  const OFF_TOPIC_MARKER := "[[LF_OFF_TOPIC]]"

  function Concat(parts: seq<string>): string {
    if parts == [] then "" else Concat(parts[..|parts| - 1]) + parts[|parts| - 1]
  }

  lemma ConcatOne(parts: seq<string>, part: string)
    ensures Concat(parts + [part]) == Concat(parts) + part
  {
    assert (parts + [part])[..|parts|] == parts;
  }

  lemma EmptyConcat()
    ensures Concat([]) == ""
  {
  }

  // --- what the filters are for --------------------------------------------------------

  predicate IsFenceChar(c: char) {
    c == '`' || c == '~'
  }

  predicate FenceAt(text: string, i: int) {
    0 <= i && i + 3 <= |text| && IsFenceChar(text[i]) && text[i] == text[i + 1] == text[i + 2]
  }

  predicate HasFence(text: string) {
    exists i | 0 <= i < |text| :: FenceAt(text, i)
  }

  /** The text before its first fence, all of it when it has none. */
  ghost predicate IsKept(text: string, kept: string) {
    && kept <= text
    && (forall i | 0 <= i < |kept| :: !FenceAt(text, i))
    && (if HasFence(text) then FenceAt(text, |kept|) else kept == text)
  }

  lemma KeptIsUnique(text: string, a: string, b: string)
    requires IsKept(text, a) && IsKept(text, b)
    ensures a == b
  {
    assert |a| == |b|;
    assert a == text[..|a|] && b == text[..|b|];
  }

  predicate IsSpace(c: char) {
    c in {' ', '\t', '\n', '\r'}
  }

  function Strip(text: string): (stripped: string)
    ensures |stripped| <= |text|
  {
    if text == "" then ""
    else if IsSpace(text[0]) then Strip(text[1..])
    else if IsSpace(text[|text| - 1]) then Strip(text[..|text| - 1])
    else text
  }

  lemma StripsToMarker(buffer: string)
    requires buffer <= OFF_TOPIC_MARKER
    ensures Strip(buffer) == OFF_TOPIC_MARKER <==> buffer == OFF_TOPIC_MARKER
  {
  }

  // --- the filters ------------------------------------------------------------------------

  class OffTopicGate {
    var buffer: string
    var flushed: bool
    /** Everything fed and everything let through so far. */
    ghost var seen: string
    ghost var given: string

    ghost predicate Valid()
      reads this
    {
      && (flushed ==> buffer == "" && given == seen && !(seen <= OFF_TOPIC_MARKER))
      && (!flushed ==> given == "" && buffer == seen && seen <= OFF_TOPIC_MARKER)
    }

    constructor ()
      ensures Valid() && seen == "" && given == ""
    {
      buffer, flushed, seen, given := "", false, "", "";
    }

    method Feed(text: string) returns (chunks: seq<string>)
      requires Valid()
      modifies this
      ensures Valid() && seen == old(seen) + text
      ensures given == old(given) + Concat(chunks)
    {
      seen := seen + text;
      if flushed {
        chunks := if text != "" then [text] else [];
        given := seen;
        ConcatOne([], text);
        return;
      }
      buffer := buffer + text;
      if (|buffer| < |OFF_TOPIC_MARKER| && buffer <= OFF_TOPIC_MARKER) || buffer == OFF_TOPIC_MARKER {
        return [];
      }
      flushed := true;
      chunks := [buffer];
      ConcatOne([], buffer);
      given := seen;
      buffer := "";
    }

    method Finish() returns (isRefusal: bool, leftover: string)
      requires Valid()
      ensures isRefusal <==> seen == OFF_TOPIC_MARKER
      ensures given + leftover == if isRefusal then "" else seen
    {
      if !flushed {
        StripsToMarker(buffer);
      }
      if !flushed && Strip(buffer) == OFF_TOPIC_MARKER {
        return true, "";
      }
      return false, if flushed then "" else buffer;
    }
  }

  /** The first position of three times `c`, or -1. */
  method Find(text: string, c: char) returns (position: int)
    requires IsFenceChar(c)
    ensures -1 <= position < |text|
    ensures position >= 0 ==> FenceAt(text, position) && text[position] == c
    ensures forall i | 0 <= i < (if position < 0 then |text| else position) :: !(FenceAt(text, i) && text[i] == c)
  {
    for i := 0 to |text|
      invariant forall j | 0 <= j < i :: !(FenceAt(text, j) && text[j] == c)
    {
      if FenceAt(text, i) && text[i] == c {
        return i;
      }
    }
    position := -1;
  }

  ghost predicate IsFirstFence(text: string, cut: int) {
    && (cut >= 0 ==> FenceAt(text, cut))
    && forall i | 0 <= i < (if cut < 0 then |text| else cut) :: !FenceAt(text, i)
  }

  /** The fences of `given + rest` are those of `rest`. */
  ghost predicate FencesShift(given: string, rest: string) {
    && (forall i | FenceAt(given + rest, i) :: i >= |given| && FenceAt(rest, i - |given|))
    && (forall i | FenceAt(rest, i) :: FenceAt(given + rest, |given| + i))
  }

  /** The smaller of the first backtick fence and the first tilde fence, or -1. */
  method FirstFence(text: string) returns (cut: int)
    ensures -1 <= cut < |text| && IsFirstFence(text, cut)
  {
    var ticks := Find(text, '`');
    var tildes := Find(text, '~');
    cut := if tildes < 0 || (0 <= ticks < tildes) then ticks else tildes;
  }

  predicate Extends(text: string, hold: nat)
    requires hold <= |text|
  {
    hold < (if |text| < 2 then |text| else 2)
    && text[|text| - hold - 1] == text[|text| - 1] && IsFenceChar(text[|text| - 1])
  }

  /** How many characters to hold back: the final run of one fence character, up to two. */
  method RunLength(text: string) returns (hold: nat)
    ensures hold <= 2 && hold <= |text| && !Extends(text, hold)
    ensures forall i | |text| - hold <= i < |text| :: text[i] == text[|text| - 1] && IsFenceChar(text[|text| - 1])
  {
    hold := 0;
    while Extends(text, hold)
      invariant 0 <= hold <= 2 && hold <= |text|
      invariant forall i | |text| - hold <= i < |text| :: text[i] == text[|text| - 1] && IsFenceChar(text[|text| - 1])
      decreases 2 - hold
    {
      hold := hold + 1;
    }
  }

  /** `pending` is the run of equal fence characters, at most two, that ends `seen`. */
  ghost predicate IsHeld(seen: string, given: string, pending: string) {
    && seen == given + pending && |pending| <= 2
    && (forall i | 0 <= i < |pending| :: IsFenceChar(pending[i]) && pending[i] == pending[0])
    && (given != "" ==>
          if pending == "" then !IsFenceChar(given[|given| - 1]) else given[|given| - 1] != pending[0])
  }

  /** One chunk, when no fence has been seen yet: the part to let through, the
      part to hold back, and whether a fence was found. */
  method CutText(ghost seen: string, ghost given: string, pending: string, text: string)
    returns (safe: string, rest: string, found: bool)
    requires !HasFence(seen) && IsHeld(seen, given, pending)
    ensures found <==> HasFence(seen + text)
    ensures found ==> rest == "" && IsKept(seen + text, given + safe)
    ensures !found ==> IsHeld(seen + text, given + safe, rest)
  {
    hide HasFence, IsHeld, IsKept, FenceAt, IsFirstFence, FencesShift, Extends;
    var combined := pending + text;
    FencesInCombined(seen, given, pending, text);
    var cut := FirstFence(combined);
    if cut >= 0 {
      FirstFenceFound(given, combined, cut);
      return combined[..cut], "", true;
    }
    NoFenceFound(given, combined);
    var hold := RunLength(combined);
    HoldIsHeld(seen, given, pending, text, combined, hold);
    return combined[..|combined| - hold], combined[|combined| - hold..], false;
  }

  class CodeFenceGate {
    var pending: string
    var blocked: bool
    ghost var seen: string
    ghost var given: string

    ghost predicate Valid()
      reads this
    {
      && (blocked <==> HasFence(seen))
      && (blocked ==> pending == "" && IsKept(seen, given))
      && (!blocked ==> IsHeld(seen, given, pending))
    }

    constructor ()
      ensures Valid() && seen == "" && given == ""
    {
      pending, blocked, seen, given := "", false, "", "";
    }

    method Feed(text: string) returns (safe: string)
      requires Valid()
      modifies this
      ensures Valid() && seen == old(seen) + text && given == old(given) + safe
    {
      ghost var before := seen;
      seen := seen + text;
      if blocked {
        KeptStays(before, text, given);
        return "";
      }
      hide HasFence, IsHeld, IsKept;
      safe, pending, blocked := CutText(before, given, pending, text);
      given := given + safe;
    }

    method Finish() returns (rest: string)
      requires Valid()
      ensures IsKept(seen, given + rest)
    {
      rest := if blocked then "" else pending;
    }
  }

  /** Once a fence has been seen, more text does not change what is kept. */
  lemma KeptStays(text: string, more: string, kept: string)
    requires HasFence(text) && IsKept(text, kept)
    ensures HasFence(text + more) && IsKept(text + more, kept)
  {
    assert FenceAt(text + more, |kept|);
    forall i | 0 <= i < |kept| ensures !FenceAt(text + more, i) {
      assert !FenceAt(text, i);
    }
  }

  /** With the last run held back, a fence in the text so far begins in what
      has not been let through. */
  lemma FencesInCombined(seen: string, given: string, pending: string, text: string)
    requires !HasFence(seen) && IsHeld(seen, given, pending)
    ensures seen + text == given + (pending + text)
    ensures FencesShift(given, pending + text)
  {
    var all := seen + text;
    assert all == given + (pending + text);
    if given != "" {
      assert all[|given| - 1] == given[|given| - 1];
      assert pending != "" ==> all[|given|] == pending[0];
    }
    forall i | FenceAt(all, i) ensures i >= |given| && FenceAt(pending + text, i - |given|) {
      if i + 3 <= |seen| {
        assert FenceAt(seen, i);
        assert false;
      }
      if i < |given| {
        assert false;
      }
    }
    forall i | FenceAt(pending + text, i) ensures FenceAt(all, |given| + i) {
      assert all[|given| + i] == (pending + text)[i];
    }
  }

  lemma FirstFenceFound(given: string, combined: string, cut: int)
    requires 0 <= cut < |combined| && IsFirstFence(combined, cut) && FencesShift(given, combined)
    ensures HasFence(given + combined) && IsKept(given + combined, given + combined[..cut])
  {
    assert FenceAt(given + combined, |given| + cut);
  }

  lemma NoFenceFound(given: string, combined: string)
    requires IsFirstFence(combined, -1) && FencesShift(given, combined)
    ensures !HasFence(given + combined)
  {
  }

  lemma HoldIsHeld(before: string, given: string, pending: string, text: string, combined: string, hold: nat)
    requires IsHeld(before, given, pending) && combined == pending + text && hold <= |combined| && hold <= 2
    requires IsFirstFence(combined, -1)
    requires forall i | |combined| - hold <= i < |combined| :: combined[i] == combined[|combined| - 1] && IsFenceChar(combined[|combined| - 1])
    requires !Extends(combined, hold)
    ensures var split := |combined| - hold;
      IsHeld(before + text, given + combined[..split], combined[split..])
  {
    var split := |combined| - hold;
    var g := given + combined[..split];
    assert combined == combined[..split] + combined[split..];
    assert before + text == given + combined;
    assert before + text == g + combined[split..];
    if split > 0 {
      assert g[|g| - 1] == combined[split - 1];
      if hold == 2 {
        assert !FenceAt(combined, split - 1);
      }
    } else {
      assert g == given;
      assert combined[split..] == combined;
    }
  }

  // --- the stream of one turn ------------------------------------------------------------------

  /** Feeds the chunks of one response through both filters, one after the other. */
  method FeedChunks(gate: OffTopicGate, codeGate: CodeFenceGate, chunks: seq<string>) returns (fullText: string, deltas: seq<string>)
    requires gate.Valid() && codeGate.Valid()
    requires gate.seen == gate.given == codeGate.seen == codeGate.given == ""
    modifies gate, codeGate
    ensures gate.Valid() && codeGate.Valid()
    ensures codeGate.seen == Concat(chunks) && codeGate.given == gate.seen == fullText && gate.given == Concat(deltas)
  {
    fullText, deltas := "", [];
    for i := 0 to |chunks|
      invariant gate.Valid() && codeGate.Valid()
      invariant codeGate.seen == Concat(chunks[..i])
      invariant codeGate.given == gate.seen == fullText
      invariant gate.given == Concat(deltas)
    {
      ConcatOne(chunks[..i], chunks[i]);
      assert chunks[..i + 1] == chunks[..i] + [chunks[i]];
      var safe := codeGate.Feed(chunks[i]);
      fullText := fullText + safe;
      var passed := gate.Feed(safe);
      ConcatBoth(deltas, passed);
      deltas := deltas + passed;
    }
    assert chunks[..|chunks|] == chunks;
  }

  /** What the first filter lets through of a text that is not over: nothing
      while it may still be the marker. */
  function LetThrough(text: string): string {
    if text <= OFF_TOPIC_MARKER then "" else text
  }

  /** The stream of one whole response. Whatever the chunks are, the outcome
      depends only on the text they make up. */
  method FilterStream(chunks: seq<string>)
    returns (fullText: string, deltas: seq<string>, leftover: string, isRefusal: bool, blocked: bool)
    ensures IsKept(Concat(chunks), fullText)
    ensures blocked <==> HasFence(Concat(chunks))
    ensures isRefusal <==> fullText == OFF_TOPIC_MARKER
    ensures Concat(deltas) == LetThrough(fullText)
    ensures Concat(deltas) + leftover == if isRefusal then "" else fullText
  {
    hide HasFence, IsKept, IsHeld, FenceAt, Strip, Concat;
    EmptyConcat();
    var gate := new OffTopicGate();
    var codeGate := new CodeFenceGate();
    fullText, deltas := FeedChunks(gate, codeGate, chunks);
    var ending := codeGate.Finish();
    fullText := fullText + ending;
    var passed := gate.Feed(ending);
    ConcatBoth(deltas, passed);
    deltas := deltas + passed;
    isRefusal, leftover := gate.Finish();
    blocked := codeGate.blocked;
  }

  /** A response that breaks off: what was let through by then. `part` is all but at
      most the last two characters of the kept text. */
  ghost predicate BrokenOff(kept: string, shown: string, part: string) {
    part <= kept && |kept| <= |part| + 2 && shown == LetThrough(part)
  }

  method BreakOff(chunks: seq<string>) returns (deltas: seq<string>, ghost kept: string, ghost part: string)
    ensures IsKept(Concat(chunks), kept) && BrokenOff(kept, Concat(deltas), part)
  {
    var gate := new OffTopicGate();
    var codeGate := new CodeFenceGate();
    part, deltas := FeedChunks(gate, codeGate, chunks);
    kept := part + if codeGate.blocked then "" else codeGate.pending;
    hide HasFence, FenceAt;
    if codeGate.blocked {
      assert kept == part;
    } else {
      HeldIsKept(codeGate.seen, part, codeGate.pending);
    }
  }

  lemma HeldIsKept(seen: string, given: string, pending: string)
    requires !HasFence(seen) && IsHeld(seen, given, pending)
    ensures IsKept(seen, given + pending)
  {
    assert given + pending == seen;
    forall i | 0 <= i < |seen| ensures !FenceAt(seen, i) {
    }
  }

  lemma {:induction false} ConcatBoth(a: seq<string>, b: seq<string>)
    ensures Concat(a + b) == Concat(a) + Concat(b)
  {
    if b == [] {
      assert a + b == a;
    } else {
      assert (a + b)[..|a + b| - 1] == a + b[..|b| - 1];
      ConcatBoth(a, b[..|b| - 1]);
    }
  }
}
