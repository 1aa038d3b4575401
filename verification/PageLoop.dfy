/**
 The page loop over a scanned PDF: pixel bookkeeping, skipped pages, early stops and the output byte limit. Text is
 held in its UTF-8 form. What the clock, the PDF reader and the recognizer answer is part of the input.
 */
module PageLoop {
  import opened Common
  import opened PixelBudget

  const FORM_FEED: Byte := 12

  datatype Stage = Load | Render | Recognize | BudgetSpent

  datatype StopReason = Deadline | Budget

  /** What a page's viewport call gives: no page object at all, an exception, a size that is not finite, or a size. */
  datatype Viewport = PageMissing | ViewportFails | NotFinite | Size(width: real, height: real)

  /** What happens to a page once its scale is known. */
  datatype Outcome = ScaleFails | RenderFails | RecognizeFails | Recognized(text: Bytes)

  /** `late` is the deadline check at the head of this page's turn. */
  datatype Page = Page(late: bool, viewport: Viewport, outcome: Outcome)

  datatype Skip = Skip(page: nat, stage: Stage)

  datatype Progress = Progress(pixels: int, read: nat, skipped: seq<Skip>, text: Bytes, stage: Stage)

  datatype Turn = Continue(next: Progress) | Stop(reason: StopReason) | Abort(at: Stage) | OverLimit(pixels: int)

  datatype Extraction =
    | LimitExceeded
    | Unavailable(stage: Stage)
    | Extracted(text: Bytes, read: nat, skipped: seq<Skip>, stopped: Option<StopReason>)

  const START := Progress(0, 0, [], [], Load)

  function Skipping(p: Progress, number: nat, stage: Stage, pixels: int): Progress {
    p.(pixels := pixels, skipped := p.skipped + [Skip(number, stage)], stage := stage)
  }

  /** What a recognized page adds: a form feed first, unless it is the first page read or has no text. */
  function Piece(read: nat, text: Bytes): Bytes {
    if read > 0 && text != [] then [FORM_FEED] + text else text
  }

  function SizedTurn(p: Progress, page: Page, number: nat, max: nat, root: (int, int) -> real): Turn
    requires page.viewport.Size?
  {
    var width, height := page.viewport.width, page.viewport.height;
    var budget := PageBudget(p.pixels);
    if budget <= 0 then Stop(Budget)
    else if RequestedPixels(width, height) <= 0 then Continue(Skipping(p, number, Render, p.pixels))
    else if page.outcome.ScaleFails? then Continue(Skipping(p, number, Render, p.pixels))
    else
      var pixels := p.pixels + PagePixels(width, height, budget, root);
      match page.outcome
      case RenderFails => Continue(Skipping(p, number, Render, pixels))
      case RecognizeFails => Continue(Skipping(p, number, Recognize, pixels))
      case Recognized(text) =>
        var piece := Piece(p.read, text);
        if |p.text| + |piece| > max then OverLimit(pixels)
        else Continue(p.(pixels := pixels, read := p.read + 1, text := p.text + piece, stage := Recognize))
  }

  function TurnOf(p: Progress, page: Page, number: nat, max: nat, root: (int, int) -> real): Turn {
    if page.late then Stop(Deadline)
    else
      match page.viewport
      case PageMissing => Abort(Render)
      case ViewportFails => Continue(Skipping(p, number, Render, p.pixels))
      case NotFinite =>
        if PageBudget(p.pixels) <= 0 then Stop(Budget) else Continue(Skipping(p, number, Render, p.pixels))
      case Size(_, _) => SizedTurn(p, page, number, max, root)
  }

  function Finish(p: Progress, stopped: Option<StopReason>): Extraction {
    if p.read == 0 then Unavailable(if stopped == Some(Budget) then BudgetSpent else p.stage)
    else Extracted(p.text, p.read, p.skipped, stopped)
  }

  function Extract(p: Progress, pages: seq<Page>, k: nat, max: nat, root: (int, int) -> real): Extraction
    requires k <= |pages|
    decreases |pages| - k
  {
    if k == |pages| then Finish(p, None)
    else
      match TurnOf(p, pages[k], k + 1, max, root)
      case Continue(next) => Extract(next, pages, k + 1, max, root)
      case Stop(reason) => Finish(p, Some(reason))
      case Abort(stage) => Unavailable(stage)
      case OverLimit(_) => LimitExceeded
  }

  // ---------------------------------------------------------------------------------------------------------
  // The loop in its own form.

  /** The output: parts whose bytes never exceed the limit. */
  class BoundedUtf8Text {
    const maxBytes: nat
    var parts: seq<Bytes>
    var byteLength: nat

    ghost predicate Valid()
      reads this
    {
      byteLength == |Concat(parts)| && byteLength <= maxBytes
    }

    constructor (maxBytes: nat)
      ensures Valid() && this.maxBytes == maxBytes && parts == []
    {
      this.maxBytes := maxBytes;
      parts := [];
      byteLength := 0;
    }

    /** Appends, or refuses and changes nothing when the limit would be passed. */
    method Append(value: Bytes) returns (ok: bool)
      requires Valid()
      modifies this`parts, this`byteLength
      ensures Valid()
      ensures ok <==> |old(Text())| + |value| <= maxBytes
      ensures Text() == if ok then old(Text()) + value else old(Text())
    {
      if byteLength + |value| > maxBytes {
        return false;
      }
      ConcatAppend(parts, value);
      parts := parts + [value];
      byteLength := byteLength + |value|;
      return true;
    }

    function Text(): Bytes
      reads this
    {
      Concat(parts)
    }
  }

  /** The two appends of a recognized page. */
  method AppendPage(output: BoundedUtf8Text, read: nat, text: Bytes) returns (ok: bool)
    requires output.Valid()
    modifies output`parts, output`byteLength
    ensures output.Valid()
    ensures ok <==> |old(output.Text())| + |Piece(read, text)| <= output.maxBytes
    ensures ok ==> output.Text() == old(output.Text()) + Piece(read, text)
  {
    if read > 0 && text != [] {
      ok := output.Append([FORM_FEED]);
      if !ok {
        return;
      }
    }
    ok := output.Append(text);
  }

  /** The page loop; `root` stands for the square root of the budget over the requested pixels. */
  method RenderScannedPdfText(pages: seq<Page>, maxBytes: nat, root: (int, int) -> real) returns (r: Extraction)
    ensures r == Extract(START, pages, 0, maxBytes, root)
  {
    var output := new BoundedUtf8Text(maxBytes);
    var pixels: int, read: nat, skipped: seq<Skip>, stage := 0, 0, [], Load;
    var stopped: Option<StopReason> := None;
    var k := 0;
    while k < |pages|
      invariant k <= |pages| && output.Valid() && output.maxBytes == maxBytes && fresh(output) && stopped == None
      invariant Extract(START, pages, 0, maxBytes, root)
             == Extract(Progress(pixels, read, skipped, output.Text(), stage), pages, k, maxBytes, root)
      decreases |pages| - k
    {
      var page := pages[k];
      if page.late {
        stopped := Some(Deadline);
        break;
      }
      if page.viewport.PageMissing? {
        return Unavailable(Render);
      }
      k := k + 1;
      if page.viewport.ViewportFails? {
        stage, skipped := Render, skipped + [Skip(k, Render)];
        continue;
      }
      var budget := PageBudget(pixels);
      if budget <= 0 {
        stopped, stage := Some(Budget), Render;
        break;
      }
      if page.viewport.NotFinite? || RequestedPixels(page.viewport.width, page.viewport.height) <= 0
         || page.outcome.ScaleFails? {
        stage, skipped := Render, skipped + [Skip(k, Render)];
        continue;
      }
      pixels := pixels + PagePixels(page.viewport.width, page.viewport.height, budget, root);
      match page.outcome {
        case RenderFails =>
          stage, skipped := Render, skipped + [Skip(k, Render)];
        case RecognizeFails =>
          stage, skipped := Recognize, skipped + [Skip(k, Recognize)];
        case Recognized(text) =>
          stage := Recognize;
          var ok := AppendPage(output, read, text);
          if !ok {
            return LimitExceeded;
          }
          read := read + 1;
      }
    }
    return Finish(Progress(pixels, read, skipped, output.Text(), stage), stopped);
  }

  // ---------------------------------------------------------------------------------------------------------
  // What the loop guarantees.

  /** What is wrong with a page, if anything. */
  function Fault(page: Page): Option<Stage> {
    if !page.viewport.Size? || RequestedPixels(page.viewport.width, page.viewport.height) <= 0 then Some(Render)
    else if page.outcome.ScaleFails? || page.outcome.RenderFails? then Some(Render)
    else if page.outcome.RecognizeFails? then Some(Recognize)
    else None
  }

  /** In page order, each of the first `k` pages is skipped for its own fault, or has none and gives the next text. */
  ghost predicate Accounts(pages: seq<Page>, k: nat, skipped: seq<Skip>, texts: seq<Bytes>)
    requires k <= |pages|
    decreases k
  {
    if k == 0 then skipped == [] && texts == []
    else if Fault(pages[k - 1]).Some? then
      && skipped != [] && skipped[|skipped| - 1] == Skip(k, Fault(pages[k - 1]).value)
      && Accounts(pages, k - 1, skipped[..|skipped| - 1], texts)
    else
      && texts != [] && pages[k - 1].outcome == Recognized(texts[|texts| - 1])
      && Accounts(pages, k - 1, skipped, texts[..|texts| - 1])
  }

  /** The texts with form feeds between them; a later page without text adds nothing. */
  function Joined(texts: seq<Bytes>): Bytes {
    if texts == [] then []
    else
      var last := texts[|texts| - 1];
      Joined(texts[..|texts| - 1]) + if |texts| > 1 && last != [] then [FORM_FEED] + last else last
  }

  /** Where the last skipped page failed. */
  function LastFault(skipped: seq<Skip>): Stage {
    if skipped == [] then Load else skipped[|skipped| - 1].stage
  }

  /** The pixels drawn for the first `k` pages, when the run comes so far. */
  function PixelsOf(pages: seq<Page>, k: nat, root: (int, int) -> real): int
    requires k <= |pages|
  {
    if k == 0 then 0
    else
      var before, page := PixelsOf(pages, k - 1, root), pages[k - 1];
      if page.viewport.Size? && RequestedPixels(page.viewport.width, page.viewport.height) > 0
         && !page.outcome.ScaleFails? then
        before + PagePixels(page.viewport.width, page.viewport.height, PageBudget(before), root)
      else before
  }

  /** Each of the first `k` pages was in time, could be fetched, and had pixels left unless its viewport failed. */
  predicate Passable(pages: seq<Page>, k: nat, root: (int, int) -> real)
    requires k <= |pages|
  {
    forall i :: 0 <= i < k ==>
      && !pages[i].late && !pages[i].viewport.PageMissing?
      && (pages[i].viewport.ViewportFails? || PixelsOf(pages, i, root) < TOTAL_PIXELS)
  }

  ghost predicate Keeps(
    p: Progress, pages: seq<Page>, k: nat, max: nat, root: (int, int) -> real, texts: seq<Bytes>)
    requires k <= |pages|
  {
    && p.pixels == PixelsOf(pages, k, root) && Passable(pages, k, root)
    && Accounts(pages, k, p.skipped, texts) && p.read == |texts| && p.read + |p.skipped| == k
    && p.text == Joined(texts) && |p.text| <= max
    && (texts == [] ==> p.stage == LastFault(p.skipped))
  }

  lemma SkipKeeps(
    p: Progress, pages: seq<Page>, k: nat, max: nat, root: (int, int) -> real, texts: seq<Bytes>, stage: Stage,
    pixels: int)
    requires k < |pages| && Keeps(p, pages, k, max, root, texts) && Fault(pages[k]) == Some(stage)
    requires pixels == PixelsOf(pages, k + 1, root) && Passable(pages, k + 1, root)
    ensures Keeps(Skipping(p, k + 1, stage, pixels), pages, k + 1, max, root, texts)
  {
    var skipped := p.skipped + [Skip(k + 1, stage)];
    assert skipped[..|skipped| - 1] == p.skipped;
    hide PixelsOf, Passable;
  }

  lemma ReadKeeps(
    p: Progress, pages: seq<Page>, k: nat, max: nat, root: (int, int) -> real, texts: seq<Bytes>, text: Bytes,
    q: Progress)
    requires k < |pages| && Keeps(p, pages, k, max, root, texts)
    requires pages[k].outcome == Recognized(text) && Fault(pages[k]) == None
    requires q.skipped == p.skipped && q.read == p.read + 1 && q.text == p.text + Piece(p.read, text) && |q.text| <= max
    requires q.pixels == PixelsOf(pages, k + 1, root) && Passable(pages, k + 1, root)
    ensures Keeps(q, pages, k + 1, max, root, texts + [text])
  {
    hide PixelsOf, Passable;
    JoinedSnoc(texts, text);
    var more := texts + [text];
    assert more[..|more| - 1] == texts && more[|more| - 1] == text;
  }

  lemma JoinedSnoc(texts: seq<Bytes>, text: Bytes)
    ensures Joined(texts + [text]) == Joined(texts) + Piece(|texts|, text)
  {
    var more := texts + [text];
    assert more[..|more| - 1] == texts && more[|more| - 1] == text;
  }

  /** A page that is passed was passable, and its pixels are counted. */
  lemma TurnPasses(p: Progress, pages: seq<Page>, k: nat, max: nat, root: (int, int) -> real)
    requires k < |pages| && p.pixels == PixelsOf(pages, k, root) && Passable(pages, k, root)
    requires TurnOf(p, pages[k], k + 1, max, root).Continue?
    ensures TurnOf(p, pages[k], k + 1, max, root).next.pixels == PixelsOf(pages, k + 1, root)
    ensures Passable(pages, k + 1, root)
  {
    hide RequestedPixels, PagePixels;
  }

  lemma TurnKeeps(p: Progress, pages: seq<Page>, k: nat, max: nat, root: (int, int) -> real, texts: seq<Bytes>)
    returns (more: seq<Bytes>)
    requires k < |pages| && Keeps(p, pages, k, max, root, texts) && TurnOf(p, pages[k], k + 1, max, root).Continue?
    ensures Keeps(TurnOf(p, pages[k], k + 1, max, root).next, pages, k + 1, max, root, more)
  {
    TurnPasses(p, pages, k, max, root);
    hide PageBudget, RequestedPixels, PagePixels, Accounts, PixelsOf, Passable;
    var next := TurnOf(p, pages[k], k + 1, max, root).next;
    if Fault(pages[k]).Some? {
      SkipKeeps(p, pages, k, max, root, texts, next.stage, next.pixels);
      more := texts;
    } else {
      ReadKeeps(p, pages, k, max, root, texts, pages[k].outcome.text, next);
      more := texts + [pages[k].outcome.text];
    }
  }

  /** How an extraction may end, given what happened to the pages passed before the end. */
  ghost predicate EndsWell(
    r: Extraction, pages: seq<Page>, max: nat, pixels: int, passed: nat, skipped: seq<Skip>, texts: seq<Bytes>)
    requires passed <= |pages|
  {
    match r
    case Extracted(text, read, s, stopped) =>
      && texts != [] && read == |texts| && s == skipped && text == Joined(texts) && |text| <= max
      && StopsFor(stopped, pages, pixels, passed)
    case LimitExceeded =>
      && passed < |pages| && Fault(pages[passed]) == None && pages[passed].outcome.Recognized?
      && |Joined(texts + [pages[passed].outcome.text])| > max
    case Unavailable(stage) =>
      || (passed < |pages| && pages[passed].viewport.PageMissing? && !pages[passed].late && stage == Render)
      || (texts == [] && exists stopped :: StopsFor(stopped, pages, pixels, passed)
                           && stage == if stopped == Some(Budget) then BudgetSpent else LastFault(skipped))
  }

  /** All pages passed, or the next one found the deadline over or the pixels used up. */
  ghost predicate StopsFor(stopped: Option<StopReason>, pages: seq<Page>, pixels: int, passed: nat) {
    match stopped
    case None => passed == |pages|
    case Some(Deadline) => passed < |pages| && pages[passed].late
    case Some(Budget) => passed < |pages| && pixels >= TOTAL_PIXELS
  }

  lemma TurnEnds(p: Progress, pages: seq<Page>, k: nat, max: nat, root: (int, int) -> real, texts: seq<Bytes>)
    requires k < |pages| && Keeps(p, pages, k, max, root, texts) && !TurnOf(p, pages[k], k + 1, max, root).Continue?
    ensures EndsWell(Extract(p, pages, k, max, root), pages, max, PixelsOf(pages, k, root), k, p.skipped, texts)
  {
    hide RequestedPixels, PagePixels, Accounts, Joined, PixelsOf, Passable;
    match TurnOf(p, pages[k], k + 1, max, root)
    case Stop(reason) =>
      assert StopsFor(Some(reason), pages, p.pixels, k);
    case Abort(_) =>
    case OverLimit(_) =>
      JoinedSnoc(texts, pages[k].outcome.text);
  }

  lemma {:induction false} ExtractAccounts(
    p: Progress, pages: seq<Page>, k: nat, max: nat, root: (int, int) -> real, before: seq<Bytes>)
    returns (passed: nat, skipped: seq<Skip>, texts: seq<Bytes>)
    requires k <= |pages| && Keeps(p, pages, k, max, root, before)
    ensures passed <= |pages| && Accounts(pages, passed, skipped, texts) && |texts| + |skipped| == passed
    ensures Passable(pages, passed, root)
    ensures EndsWell(Extract(p, pages, k, max, root), pages, max, PixelsOf(pages, passed, root), passed, skipped, texts)
    decreases |pages| - k
  {
    hide RequestedPixels, PagePixels, Accounts, Joined, TurnOf, EndsWell, PixelsOf, Passable;
    if k == |pages| {
      passed, skipped, texts := k, p.skipped, before;
      AllPassed(p, pages, max, root, before);
    } else if TurnOf(p, pages[k], k + 1, max, root).Continue? {
      var more := TurnKeeps(p, pages, k, max, root, before);
      passed, skipped, texts :=
        ExtractAccounts(TurnOf(p, pages[k], k + 1, max, root).next, pages, k + 1, max, root, more);
    } else {
      passed, skipped, texts := k, p.skipped, before;
      TurnEnds(p, pages, k, max, root, before);
    }
  }

  lemma AllPassed(p: Progress, pages: seq<Page>, max: nat, root: (int, int) -> real, texts: seq<Bytes>)
    requires Keeps(p, pages, |pages|, max, root, texts)
    ensures EndsWell(Extract(p, pages, |pages|, max, root), pages, max, p.pixels, |pages|, p.skipped, texts)
  {
    assert StopsFor(None, pages, p.pixels, |pages|);
  }

  /**
   Every page passed was in time and passable, and is skipped for its own fault or read; the counts of both add up to
   the pages passed. The text is exactly the read pages', within the limit; the loop ends early only for the deadline,
   the pixels used up, the output limit, or a page that cannot be fetched.
   */
  lemma EveryPageAccounted(pages: seq<Page>, max: nat, root: (int, int) -> real)
    returns (passed: nat, skipped: seq<Skip>, texts: seq<Bytes>)
    ensures passed <= |pages| && Accounts(pages, passed, skipped, texts) && |texts| + |skipped| == passed
    ensures Passable(pages, passed, root)
    ensures EndsWell(Extract(START, pages, 0, max, root), pages, max, PixelsOf(pages, passed, root),
                     passed, skipped, texts)
  {
    passed, skipped, texts := ExtractAccounts(START, pages, 0, max, root, []);
  }

  /**
   Pages that give text on their own give none with a page behind them that cannot be fetched at all: unlike any other
   bad page it drops everything read before it.
   */
  lemma MissingPageDropsEverything(pages: seq<Page>, k: nat, max: nat, root: (int, int) -> real)
    requires k < |pages| && pages[k].viewport.PageMissing? && !pages[k].late
    requires
      var r := Extract(START, pages[..k], 0, max, root);
      r.Extracted? && r.stopped == None
    ensures Extract(START, pages, 0, max, root) == Unavailable(Render)
  {
    RunsIntoMissing(START, pages, 0, k, max, root);
  }

  lemma {:induction false} RunsIntoMissing(
    p: Progress, pages: seq<Page>, j: nat, k: nat, max: nat, root: (int, int) -> real)
    requires j <= k < |pages| && pages[k].viewport.PageMissing? && !pages[k].late
    requires
      var r := Extract(p, pages[..k], j, max, root);
      r.Extracted? && r.stopped == None
    ensures Extract(p, pages, j, max, root) == Unavailable(Render)
    decreases k - j
  {
    if j < k {
      assert pages[..k][j] == pages[j];
      var turn := TurnOf(p, pages[j], j + 1, max, root);
      hide TurnOf;
      assert turn.Continue?;
      RunsIntoMissing(turn.next, pages, j + 1, k, max, root);
    }
  }

  // ---------------------------------------------------------------------------------------------------------
  // Pixels.

  /** The pixels counted when the loop ends, however it ends. */
  function PixelsUsed(p: Progress, pages: seq<Page>, k: nat, max: nat, root: (int, int) -> real): int
    requires k <= |pages|
    decreases |pages| - k
  {
    if k == |pages| then p.pixels
    else
      match TurnOf(p, pages[k], k + 1, max, root)
      case Continue(next) => PixelsUsed(next, pages, k + 1, max, root)
      case OverLimit(pixels) => pixels
      case _ => p.pixels
  }

  /** The page is drawn in this turn. */
  predicate Drawn(p: Progress, page: Page) {
    && !page.late && page.viewport.Size? && PageBudget(p.pixels) > 0
    && RequestedPixels(page.viewport.width, page.viewport.height) > 0 && !page.outcome.ScaleFails?
  }

  /** The longer side of a page drawn in this turn, scaled for the page's budget, fits what is left for the document. */
  predicate FitsNow(p: Progress, page: Page) {
    Drawn(p, page) ==>
      LongSideFits(page.viewport.width, page.viewport.height, PageBudget(p.pixels), TOTAL_PIXELS - p.pixels)
  }

  /** Every page of the run fits in its turn. */
  predicate FitInTurn(p: Progress, pages: seq<Page>, k: nat, max: nat, root: (int, int) -> real)
    requires k <= |pages|
    decreases |pages| - k
  {
    k < |pages| ==>
      && FitsNow(p, pages[k])
      && (TurnOf(p, pages[k], k + 1, max, root).Continue? ==>
            FitInTurn(TurnOf(p, pages[k], k + 1, max, root).next, pages, k + 1, max, root))
  }

  /** The count after a turn, however it ends. */
  function PixelsAfter(p: Progress, turn: Turn): int {
    match turn
    case Continue(next) => next.pixels
    case OverLimit(pixels) => pixels
    case _ => p.pixels
  }

  /**
   A turn counts nothing, or the pixels of a page it draws. Those are within the page's budget exactly when its longer
   side fits that budget, and leave the document's kept exactly when it fits what is left of it.
   */
  lemma TurnWithinBudget(p: Progress, page: Page, number: nat, max: nat, root: (int, int) -> real)
    requires IsRoot(root)
    ensures
      var after := PixelsAfter(p, TurnOf(p, page, number, max, root));
      && after >= p.pixels && (after > p.pixels <==> Drawn(p, page))
      && (p.pixels <= TOTAL_PIXELS ==> (after <= TOTAL_PIXELS <==> FitsNow(p, page)))
      && (Drawn(p, page) ==>
            (after - p.pixels <= PageBudget(p.pixels)
             <==> LongSideFits(page.viewport.width, page.viewport.height, PageBudget(p.pixels), PageBudget(p.pixels))))
  {
    if Drawn(p, page) {
      var width, height, budget := page.viewport.width, page.viewport.height, PageBudget(p.pixels);
      PageFitsIffLongSideFits(width, height, budget, budget, root);
      PageFitsIffLongSideFits(width, height, budget, TOTAL_PIXELS - p.pixels, root);
      PixelsPositive(width, height, budget, root);
    }
  }

  lemma {:induction false} PixelsNeverFall(p: Progress, pages: seq<Page>, k: nat, max: nat, root: (int, int) -> real)
    requires IsRoot(root) && k <= |pages|
    ensures PixelsUsed(p, pages, k, max, root) >= p.pixels
    decreases |pages| - k
  {
    if k < |pages| {
      TurnWithinBudget(p, pages[k], k + 1, max, root);
      hide TurnOf;
      match TurnOf(p, pages[k], k + 1, max, root)
      case Continue(next) => PixelsNeverFall(next, pages, k + 1, max, root);
      case _ =>
    }
  }

  /** A document keeps its pixel budget exactly when every page that is drawn fits what is left in its turn. */
  lemma {:induction false} DocumentWithinBudget(
    p: Progress, pages: seq<Page>, k: nat, max: nat, root: (int, int) -> real)
    requires IsRoot(root) && k <= |pages| && p.pixels <= TOTAL_PIXELS
    ensures PixelsUsed(p, pages, k, max, root) <= TOTAL_PIXELS <==> FitInTurn(p, pages, k, max, root)
    decreases |pages| - k
  {
    if k < |pages| {
      TurnWithinBudget(p, pages[k], k + 1, max, root);
      hide TurnOf, FitsNow;
      match TurnOf(p, pages[k], k + 1, max, root)
      case Continue(next) =>
        if next.pixels <= TOTAL_PIXELS {
          DocumentWithinBudget(next, pages, k + 1, max, root);
        } else {
          PixelsNeverFall(next, pages, k + 1, max, root);
        }
      case _ =>
    }
  }

  /** A page the loop may draw is stocky. */
  predicate StockyPage(page: Page) {
    page.viewport.Size? && RequestedPixels(page.viewport.width, page.viewport.height) > 0
    ==> Stocky(page.viewport.width, page.viewport.height)
  }

  /** So a document without pages four times as long as wide keeps its budget in any order and with any failures. */
  lemma {:induction false} StockyDocumentFits(
    p: Progress, pages: seq<Page>, k: nat, max: nat, root: (int, int) -> real)
    requires k <= |pages| && forall page :: page in pages ==> StockyPage(page)
    ensures FitInTurn(p, pages, k, max, root)
    decreases |pages| - k
  {
    if k < |pages| {
      var page := pages[k];
      assert StockyPage(page);
      if Drawn(p, page) {
        StockyFits(page.viewport.width, page.viewport.height, PageBudget(p.pixels), TOTAL_PIXELS - p.pixels);
      }
      if TurnOf(p, page, k + 1, max, root).Continue? {
        StockyDocumentFits(TurnOf(p, page, k + 1, max, root).next, pages, k + 1, max, root);
      }
    }
  }
}
