/**
 * Bounded capture (ai-capture.ts): a captured text is masked over a window only a margin longer than
 * what is kept, then cut. When that gives what masking the whole text would have.
 *
 * Masking is a list of passes over the text, one for each pattern, as `redactString` runs them.
 */
module AiCapture {
  import opened Decimals
  import opened Options

  const REDACTION_MARGIN: nat := 12288

  /** A match at a position: how much of the text it takes, and what is written instead. */
  datatype Hit = Hit(length: nat, text: string)

  /** What a pattern finds at a position of a text. */
  type Pattern = (string, nat) -> Option<Hit>

  /** A pattern, and how far it looks: its answer at a position depends on that many characters from there on. */
  datatype Pass = Pass(find: Pattern, reach: nat)

  /** A match takes something, and no more than there is. */
  function FindAt(pass: Pass, s: string, i: nat): (hit: Option<Hit>)
    requires i < |s|
    ensures hit.Some? ==> 0 < hit.value.length <= |s| - i
  {
    match pass.find(s, i)
    case Some(h) => if 0 < h.length <= |s| - i then Some(h) else None
    case None => None
  }

  /** `replace` with a global pattern: left to right, every match in turn. */
  function MaskFrom(pass: Pass, s: string, i: nat): string
    decreases |s| - i
  {
    if i >= |s| then "" else
    match FindAt(pass, s, i)
    case Some(h) => h.text + MaskFrom(pass, s, i + h.length)
    case None => [s[i]] + MaskFrom(pass, s, i + 1)
  }

  function Mask(passes: seq<Pass>, s: string): string {
    if passes == [] then s else Mask(passes[1..], MaskFrom(passes[0], s, 0))
  }

  /** `boundText`. */
  function Bound(text: string, max: nat): (bounded: string)
    ensures |bounded| <= max + 1
    ensures text[..if |text| < max then |text| else max] <= bounded
    ensures |text| <= max ==> bounded == text
    ensures |text| > max ==> |bounded| == max + 1 && bounded[max] == '\U{2026}'
  {
    if |text| <= max then text else text[..max] + ['\U{2026}']
  }

  datatype Level = NotCaptured | Metadata | Redacted | Full

  /** A host's own scrubber, run after the masking on all that is left, before the cut; without one the text is kept. */
  type Scrubber = string -> string

  const NO_SCRUBBER: Scrubber := s => s

  /** What stands for a text of `n` characters at `metadata`. */
  function Omitted(n: nat): string {
    "[text omitted \U{B7} " + (Decimal(n) + " chars]")
  }

  /** `captureText`. */
  function CaptureText(text: string, level: Level, passes: seq<Pass>, scrub: Scrubber, max: nat): (captured: Option<string>)
    ensures captured.Some? && level != Metadata ==> |captured.value| <= max + 1
    ensures captured.None? <==> text == "" || level == NotCaptured
  {
    if text == "" || level == NotCaptured then None
    else if level == Metadata then Some(Omitted(|text|))
    else
      var window := max + REDACTION_MARGIN;
      var scanned := if level == Full || |text| <= window then text else text[..window];
      Some(Bound(scrub(if level == Full then scanned else Mask(passes, scanned)), max))
  }

  // ---- How far two texts that begin alike are masked alike ----

  ghost predicate Alike(a: string, b: string, n: int) {
    n <= 0 || (n <= |a| && n <= |b| && a[..n] == b[..n])
  }

  /** A pass answers the same at a position of two texts that are alike as far as it looks. */
  ghost predicate LooksAhead(pass: Pass) {
    && pass.reach > 0
    && forall a, b, i: nat | Alike(a, b, i + pass.reach) && i < |a| && i < |b| :: FindAt(pass, a, i) == FindAt(pass, b, i)
  }

  /** What the matches at positions before `stop` take, less what is written instead. */
  function Shrinkage(pass: Pass, s: string, i: nat, stop: int): nat
    decreases |s| - i
  {
    if i >= |s| || i >= stop then 0 else
    match FindAt(pass, s, i)
    case Some(h) => (if h.length > |h.text| then h.length - |h.text| else 0) + Shrinkage(pass, s, i + h.length, stop)
    case None => Shrinkage(pass, s, i + 1, stop)
  }

  /** How much of what is masked from `i` on two texts alike up to `n` surely share. */
  function Shared(pass: Pass, s: string, i: nat, n: int): int {
    n - (pass.reach - 1) - i - Shrinkage(pass, s, i, n - (pass.reach - 1))
  }

  lemma SharedAfter(pass: Pass, s: string, i: nat, n: int)
    requires i < |s| && i + pass.reach <= n
    ensures match FindAt(pass, s, i)
            case Some(h) => Shared(pass, s, i, n) <= |h.text| + Shared(pass, s, i + h.length, n)
            case None => Shared(pass, s, i, n) <= 1 + Shared(pass, s, i + 1, n)
  {
  }

  lemma NothingShared(pass: Pass, s: string, t: string, a: string, i: nat, n: int)
    requires n < i + pass.reach
    ensures Alike(s, t, Shared(pass, a, i, n))
  {
  }

  /** Two texts alike up to `n` are masked alike up to what the pass looks ahead and takes away. */
  lemma {:induction false} MaskedAlike(pass: Pass, a: string, b: string, i: nat, n: int)
    requires LooksAhead(pass) && Alike(a, b, n)
    ensures Alike(MaskFrom(pass, a, i), MaskFrom(pass, b, i), Shared(pass, a, i, n))
    decreases |a| - i
  {
    hide Alike, LooksAhead, Shared, FindAt;
    if n < i + pass.reach {
      NothingShared(pass, MaskFrom(pass, a, i), MaskFrom(pass, b, i), a, i, n);
    } else {
      SameAnswer(pass, a, b, i, n);
      SharedAfter(pass, a, i, n);
      match FindAt(pass, a, i)
      case Some(h) =>
        MaskedAlike(pass, a, b, i + h.length, n);
        Prepend(h.text, MaskFrom(pass, a, i + h.length), MaskFrom(pass, b, i + h.length),
                Shared(pass, a, i + h.length, n), Shared(pass, a, i, n));
      case None =>
        MaskedAlike(pass, a, b, i + 1, n);
        Prepend([a[i]], MaskFrom(pass, a, i + 1), MaskFrom(pass, b, i + 1), Shared(pass, a, i + 1, n), Shared(pass, a, i, n));
    }
  }

  lemma SameAnswer(pass: Pass, a: string, b: string, i: nat, n: int)
    requires LooksAhead(pass) && Alike(a, b, n) && i + pass.reach <= n
    ensures i < |a| && i < |b| && FindAt(pass, a, i) == FindAt(pass, b, i) && a[i] == b[i]
  {
    assert a[..i + pass.reach] == a[..n][..i + pass.reach] && b[..i + pass.reach] == b[..n][..i + pass.reach];
    assert a[i] == a[..n][i] && b[i] == b[..n][i];
  }

  lemma Prepend(head: string, a: string, b: string, n: int, m: int)
    requires Alike(a, b, n) && m <= |head| + n
    ensures Alike(head + a, head + b, m)
  {
    if m > |head| {
      assert a[..m - |head|] == a[..n][..m - |head|] && b[..m - |head|] == b[..n][..m - |head|];
      assert (head + a)[..m] == head + a[..m - |head|] && (head + b)[..m] == head + b[..m - |head|];
    } else if m > 0 {
      assert (head + a)[..m] == head[..m] && (head + b)[..m] == head[..m];
    }
  }

  /** What a list of passes looks ahead and takes away over a text of which `n` characters count. */
  function Loss(passes: seq<Pass>, s: string, n: int): int {
    if passes == [] then 0 else
    var ahead := passes[0].reach - 1;
    var loss := ahead + Shrinkage(passes[0], s, 0, n - ahead);
    loss + Loss(passes[1..], MaskFrom(passes[0], s, 0), n - loss)
  }

  lemma {:induction false} AllMaskedAlike(passes: seq<Pass>, a: string, b: string, n: int)
    requires (forall p <- passes :: LooksAhead(p)) && Alike(a, b, n)
    ensures Alike(Mask(passes, a), Mask(passes, b), n - Loss(passes, a, n))
    decreases passes
  {
    hide MaskFrom, Shrinkage, LooksAhead;
    if passes != [] {
      assert passes[0] in passes;
      MaskedAlike(passes[0], a, b, 0, n);
      var ahead := passes[0].reach - 1;
      var loss := ahead + Shrinkage(passes[0], a, 0, n - ahead);
      AllMaskedAlike(passes[1..], MaskFrom(passes[0], a, 0), MaskFrom(passes[0], b, 0), n - loss);
    }
  }

  /** Two texts alike up to some point are scrubbed alike up to `loss` characters before it. */
  ghost predicate ScrubsAlike(scrub: Scrubber, a: string, b: string, loss: nat) {
    forall n: int | Alike(a, b, n) :: Alike(scrub(a), scrub(b), n - loss)
  }

  lemma NoScrubberLosesNothing(a: string, b: string)
    ensures ScrubsAlike(NO_SCRUBBER, a, b, 0)
  {
  }

  /** A scrubber that masks by passes of its own loses what they look ahead and take away. */
  lemma PassesScrubAlike(passes: seq<Pass>, a: string, b: string, loss: nat)
    requires (forall p <- passes :: LooksAhead(p)) && forall n: int :: Loss(passes, a, n) <= loss
    ensures ScrubsAlike(s => Mask(passes, s), a, b, loss)
  {
    hide Mask, Loss, LooksAhead;
    forall n: int | Alike(a, b, n) ensures Alike(Mask(passes, a), Mask(passes, b), n - loss) {
      AllMaskedAlike(passes, a, b, n);
      AlikeShorter(Mask(passes, a), Mask(passes, b), n - Loss(passes, a, n), n - loss);
    }
  }

  lemma AlikeShorter(a: string, b: string, n: int, m: int)
    requires Alike(a, b, n) && m <= n
    ensures Alike(a, b, m)
  {
    if m > 0 { assert a[..m] == a[..n][..m] && b[..m] == b[..n][..m]; }
  }

  lemma BoundedAlike(a: string, b: string, max: nat, n: int)
    requires Alike(a, b, n) && max < n
    ensures Bound(a, max) == Bound(b, max)
  {
    AlikeShorter(a, b, n, max);
  }

  /**
   * Masking and scrubbing the window and cutting is masking and scrubbing the whole text and cutting,
   * whenever what the passes look ahead and take away within the window, and what the scrubber
   * makes differ, stays below the margin.
   */
  lemma WindowIsEnough(text: string, passes: seq<Pass>, scrub: Scrubber, loss: nat, max: nat)
    requires forall p <- passes :: LooksAhead(p)
    requires |text| > max + REDACTION_MARGIN ==>
               var window := text[..max + REDACTION_MARGIN];
               && ScrubsAlike(scrub, Mask(passes, window), Mask(passes, text), loss)
               && Loss(passes, window, max + REDACTION_MARGIN) + loss < REDACTION_MARGIN
    ensures text != "" ==> CaptureText(text, Redacted, passes, scrub, max) == Some(Bound(scrub(Mask(passes, text)), max))
  {
    hide Mask, Loss, Bound, LooksAhead;
    var n := max + REDACTION_MARGIN;
    if |text| > n {
      var window := text[..n];
      assert window[..n] == text[..n];
      AllMaskedAlike(passes, window, text, n);
      var kept := n - Loss(passes, window, n);
      assert Alike(scrub(Mask(passes, window)), scrub(Mask(passes, text)), kept - loss);
      BoundedAlike(scrub(Mask(passes, window)), scrub(Mask(passes, text)), max, kept - loss);
    }
  }

  // ---- What each level tells of a text ----

  lemma OmittedIsInjective(m: nat, n: nat)
    requires Omitted(m) == Omitted(n)
    ensures m == n
  {
    var k := |"[text omitted \U{B7} "|;
    assert Omitted(m)[k..] == Decimal(m) + " chars]" && Omitted(n)[k..] == Decimal(n) + " chars]";
    var a, b := Decimal(m) + " chars]", Decimal(n) + " chars]";
    assert |a| == |b| && a[..|Decimal(m)|] == Decimal(m) && b[..|Decimal(n)|] == Decimal(n);
    DecimalIsInjective(m, n);
  }

  /** At `metadata` two texts are captured alike exactly when they are of one length, whatever they say. */
  lemma MetadataTellsTheLength(a: string, b: string, passes: seq<Pass>, scrub: Scrubber, max: nat)
    requires a != "" && b != ""
    ensures CaptureText(a, Metadata, passes, scrub, max) == CaptureText(b, Metadata, passes, scrub, max) <==> |a| == |b|
  {
    if Omitted(|a|) == Omitted(|b|) { OmittedIsInjective(|a|, |b|); }
  }

  /** As its length in words. */
  lemma MetadataIsTheLength(text: string, passes: seq<Pass>, scrub: Scrubber, max: nat)
    requires text != ""
    ensures CaptureText(text, Metadata, passes, scrub, max) == Some("[text omitted \U{B7} " + Decimal(|text|) + " chars]")
  {
    hide *;
    CapturesItsLength(text, passes, scrub, max);
    OmittedIs(|text|);
  }

  lemma CapturesItsLength(text: string, passes: seq<Pass>, scrub: Scrubber, max: nat)
    requires text != ""
    ensures CaptureText(text, Metadata, passes, scrub, max) == Some(Omitted(|text|))
  {
    hide Omitted;
  }

  lemma OmittedIs(n: nat)
    ensures Omitted(n) == "[text omitted \U{B7} " + Decimal(n) + " chars]"
  {
    hide Decimal;
    Associates("[text omitted \U{B7} ", Decimal(n), " chars]");
  }

  lemma Associates(a: string, b: string, c: string)
    ensures a + (b + c) == (a + b) + c
  {
  }

  /** At `full` nothing is masked: what the scrubber leaves of the whole text is kept, cut where it is too long. */
  lemma FullKeepsTheText(text: string, passes: seq<Pass>, scrub: Scrubber, max: nat)
    requires text != ""
    ensures var captured, kept := CaptureText(text, Full, passes, scrub, max), scrub(text);
            && (|kept| <= max ==> captured == Some(kept))
            && (|kept| > max ==> captured == Some(kept[..max] + "\U{2026}"))
  {
  }

  /** At `redacted` a text no longer than the window is masked whole, scrubbed and cut. */
  lemma RedactedMasksTheText(text: string, passes: seq<Pass>, scrub: Scrubber, max: nat)
    requires 0 < |text| <= max + 12288
    ensures var captured, kept := CaptureText(text, Redacted, passes, scrub, max), scrub(Mask(passes, text));
            && (|kept| <= max ==> captured == Some(kept))
            && (|kept| > max ==> captured == Some(kept[..max] + "\U{2026}"))
  {
  }

  // ---- The margin cannot be any smaller ----

  /** Takes everything from position `at` on, of a text that ends within the margin from there. */
  function Swallow(at: nat, s: string, i: nat): Option<Hit> {
    if i == at && at < |s| <= at + REDACTION_MARGIN then Some(Hit(|s| - at, "")) else None
  }

  function Swallower(at: nat): Pass {
    Pass((s: string, i: nat) => Swallow(at, s, i), REDACTION_MARGIN + 1)
  }

  lemma {:induction false} NothingFound(pass: Pass, s: string, i: nat)
    requires i <= |s| && forall j: nat | i <= j < |s| :: FindAt(pass, s, j).None?
    ensures MaskFrom(pass, s, i) == s[i..]
    decreases |s| - i
  {
    if i < |s| {
      NothingFound(pass, s, i + 1);
    }
  }

  lemma {:induction false} FoundAt(at: nat, s: string, i: nat)
    requires i <= at < |s| <= at + REDACTION_MARGIN
    ensures MaskFrom(Swallower(at), s, i) == s[i..at]
    decreases at - i
  {
    if i < at {
      FoundAt(at, s, i + 1);
    }
  }

  /** A pass that looks one character further than the margin allows can leave the two apart. */
  lemma MarginIsTight(max: nat, text: string)
    requires |text| == max + REDACTION_MARGIN + 1
    ensures var pass := Swallower(max);
            && LooksAhead(pass) && Loss([pass], text[..max + REDACTION_MARGIN], max + REDACTION_MARGIN) == REDACTION_MARGIN
            && CaptureText(text, Redacted, [pass], NO_SCRUBBER, max) != Some(Bound(Mask([pass], text), max))
  {
    var pass, n := Swallower(max), max + REDACTION_MARGIN;
    var window := text[..n];
    SwallowerLooksAhead(max);
    FoundAt(max, window, 0);
    NothingFound(pass, text, 0);
    assert window[0..max] == text[..max] && text[0..] == text;
    NoShrinkageBefore(max, window, 0);
    assert [pass][1..] == [];
    assert Mask([pass], window) == Mask([], text[..max]) && Mask([pass], text) == Mask([], text);
    hide LooksAhead, Loss, Mask, Bound;
    CutTexts(text, max);
  }

  lemma CutTexts(text: string, max: nat)
    requires |text| > max
    ensures |Bound(text, max)| == max + 1 && |Bound(text[..max], max)| == max
  {
  }

  /** The longest pattern there is: a block of 8 KiB, taken whole. */
  const BLOCK: nat := 8192

  function EraseBlock(s: string, i: nat): Option<Hit> {
    if i + BLOCK <= |s| then Some(Hit(BLOCK, "")) else None
  }

  const ERASER := Pass((s: string, i: nat) => EraseBlock(s, i), BLOCK)

  /**
   * Nor need a pattern be longer than the longest there is: of two blocks in a row the first, taken
   * away, brings the second into what is kept, where the window has cut it short and it stays.
   */
  lemma ShrinkageShows(max: nat, text: string)
    requires |text| == 2 * BLOCK && max + REDACTION_MARGIN < 2 * BLOCK
    ensures LooksAhead(ERASER) && ERASER.reach < REDACTION_MARGIN
    ensures Loss([ERASER], text[..max + REDACTION_MARGIN], max + REDACTION_MARGIN) == 2 * BLOCK - 1
    ensures CaptureText(text, Redacted, [ERASER], NO_SCRUBBER, max) != Some(Bound(Mask([ERASER], text), max))
  {
    var n := max + REDACTION_MARGIN;
    var window := text[..n];
    EraserLooksAhead();
    ErasedOnce(window);
    ErasedOnce(text);
    assert FindAt(ERASER, text, BLOCK) == Some(Hit(BLOCK, "")) && MaskFrom(ERASER, text, 2 * BLOCK) == "";
    NothingFound(ERASER, window, BLOCK);
    assert [ERASER][1..] == [];
    assert Mask([ERASER], window) == Mask([], window[BLOCK..]) && Mask([ERASER], text) == Mask([], "");
    assert |Bound(window[BLOCK..], max)| > 0;
  }

  lemma ErasedOnce(s: string)
    requires BLOCK <= |s|
    ensures MaskFrom(ERASER, s, 0) == MaskFrom(ERASER, s, BLOCK)
    ensures forall stop: int | 0 < stop <= BLOCK :: Shrinkage(ERASER, s, 0, stop) == BLOCK
  {
    assert FindAt(ERASER, s, 0) == Some(Hit(BLOCK, ""));
    assert MaskFrom(ERASER, s, 0) == "" + MaskFrom(ERASER, s, BLOCK);
  }

  lemma EraserLooksAhead()
    ensures LooksAhead(ERASER)
  {
    forall a, b, i: nat | Alike(a, b, i + BLOCK) && i < |a| && i < |b| ensures FindAt(ERASER, a, i) == FindAt(ERASER, b, i) {
    }
  }

  lemma SwallowerLooksAhead(at: nat)
    ensures LooksAhead(Swallower(at))
  {
    var pass := Swallower(at);
    forall a, b, i: nat | Alike(a, b, i + pass.reach) && i < |a| && i < |b| ensures FindAt(pass, a, i) == FindAt(pass, b, i) {
    }
  }

  lemma {:induction false} NoShrinkageBefore(at: nat, s: string, i: nat)
    requires i <= at
    ensures Shrinkage(Swallower(at), s, i, at) == 0
    decreases at - i
  {
    if i < at && i < |s| {
      NoShrinkageBefore(at, s, i + 1);
    }
  }
}
