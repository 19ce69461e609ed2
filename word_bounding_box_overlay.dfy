/** `camera/WordBoundingBoxOverlay`: scales the image-space boxes of strange words to the canvas,
    draws them in a colour that tells saved, misspelled and other words apart, and maps a tap to
    the word under it. Display coordinates are `real`s. */
module WordBoundingBoxOverlay {
  import opened Wrappers
  import opened Seqs
  import opened WordModel
  import SWC = StrangeWordConfig

  /** Compose's `Rect` and `Offset`, and the canvas `Size`. */
  datatype DisplayRect = DisplayRect(left: real, top: real, right: real, bottom: real)
  datatype Offset = Offset(x: real, y: real)
  datatype Size = Size(width: real, height: real)

  /** `Rect.contains`: the left and top edges are inside, the right and bottom edges are not. */
  predicate Contains(r: DisplayRect, p: Offset) {
    r.left <= p.x < r.right && r.top <= p.y < r.bottom
  }

  /** The scale factors `size.width / inputImageWidth` and `size.height / inputImageHeight`. */
  datatype Scale = Scale(sx: real, sy: real)

  function ScaleOf(canvas: Size, inputImageWidth: real, inputImageHeight: real): (s: Scale)
    requires inputImageWidth > 0.0 && inputImageHeight > 0.0
    ensures s.sx * inputImageWidth == canvas.width && s.sy * inputImageHeight == canvas.height
  {
    Scale(canvas.width / inputImageWidth, canvas.height / inputImageHeight)
  }

  /** The display rectangle of an image box, built from its scaled top-left corner and its scaled
      width and height. */
  function ToDisplay(rect: Rect, s: Scale): (d: DisplayRect)
    ensures d.left == rect.left as real * s.sx && d.top == rect.top as real * s.sy
    ensures d.right == rect.right as real * s.sx && d.bottom == rect.bottom as real * s.sy
  {
    var left := rect.left as real * s.sx;
    var top := rect.top as real * s.sy;
    var width := (rect.right - rect.left) as real * s.sx;
    var height := (rect.bottom - rect.top) as real * s.sy;
    DisplayRect(left, top, left + width, top + height)
  }

  /** The hit test one word of the loop performs: it has bounds and its display rectangle
      contains the tap. */
  predicate UnderTap(s: Scale, tap: Offset, w: Word) {
    w.bounds.Some? && Contains(ToDisplay(w.bounds.value, s), tap)
  }

  /** A word a tap can select: strange, bounded, and under the tap. */
  predicate Selectable(commonWords: set<string>, s: Scale, tap: Offset, w: Word) {
    SWC.IsStrangeIn(commonWords, w.word) && UnderTap(s, tap, w)
  }

  /** The word a tap selects: the first selectable word in list order, if any. */
  function SelectedWord(words: seq<Word>, commonWords: set<string>, s: Scale, tap: Offset): (r: Option<Word>)
    ensures r.Some? ==> Selectable(commonWords, s, tap, r.value)
    ensures r.Some? ==> exists k :: (0 <= k < |words| && words[k] == r.value &&
      forall j :: 0 <= j < k ==> !Selectable(commonWords, s, tap, words[j]))
    ensures r.None? <==> forall j :: 0 <= j < |words| ==> !Selectable(commonWords, s, tap, words[j])
  {
    var k := FirstIndex(words, w => Selectable(commonWords, s, tap, w));
    if k < |words| then Some(words[k]) else None
  }

  /** The tap handler: filters the strange words, then walks them with the `wordSelected` flag,
      stopping after the first hit. `selected` lists the words passed to `onWordSelected`. */
  method OnTap(words: seq<Word>, commonWords: set<string>, canvas: Size,
               inputImageWidth: real, inputImageHeight: real, tapOffset: Offset)
    returns (selected: seq<Word>)
    requires inputImageWidth > 0.0 && inputImageHeight > 0.0
    ensures |selected| <= 1
    ensures selected == OptionToSeq(SelectedWord(words, commonWords, ScaleOf(canvas, inputImageWidth, inputImageHeight), tapOffset))
  {
    var scale := ScaleOf(canvas, inputImageWidth, inputImageHeight);
    var strange := (w: Word) => SWC.IsStrangeIn(commonWords, w.word);
    var strangeWords := Filter(words, strange);
    var wordSelected := false;
    selected := [];
    var i := 0;
    while i < |strangeWords|
      invariant 0 <= i <= |strangeWords|
      invariant !wordSelected ==> selected == [] && forall j :: 0 <= j < i ==> !UnderTap(scale, tapOffset, strangeWords[j])
      invariant wordSelected ==> 0 < i && selected == [strangeWords[i - 1]] && UnderTap(scale, tapOffset, strangeWords[i - 1])
      invariant wordSelected ==> forall j :: 0 <= j < i - 1 ==> !UnderTap(scale, tapOffset, strangeWords[j])
    {
      if wordSelected {
        break;
      }
      var word := strangeWords[i];
      match word.bounds {
        case Some(rect) =>
          var wordRect := ToDisplay(rect, scale);
          if Contains(wordRect, tapOffset) {
            selected := selected + [word];
            wordSelected := true;
          }
        case None =>
      }
      i := i + 1;
    }
    var hit := (w: Word) => UnderTap(scale, tapOffset, w);
    var both := (w: Word) => Selectable(commonWords, scale, tapOffset, w);
    FirstIndexFilter(words, strange, hit, both);
    var k := FirstIndex(strangeWords, hit);
    if wordSelected {
      assert k == i - 1;
    } else {
      assert k == |strangeWords|;
    }
  }

  /** `Color.Green`, `Color.Yellow`, `Color.Red`. */
  datatype Color = Green | Yellow | Red

  /** The border colour: green for a word saved as `true`, else yellow for a misspelled word,
      else red. A word missing from the status map or saved as `false` is not green. */
  function BorderColor(savedWordsStatus: map<string, bool>, w: Word): (c: Color)
    ensures c == Green <==> w.word in savedWordsStatus && savedWordsStatus[w.word]
    ensures c == Yellow <==> !(w.word in savedWordsStatus && savedWordsStatus[w.word]) && !w.isSpelledCorrectly
    ensures c == Red <==> !(w.word in savedWordsStatus && savedWordsStatus[w.word]) && w.isSpelledCorrectly
  {
    if w.word in savedWordsStatus && savedWordsStatus[w.word] then Green
    else if !w.isSpelledCorrectly then Yellow
    else Red
  }

  /** One `drawRect` call. */
  datatype DrawCommand = DrawCommand(word: Word, rect: DisplayRect, color: Color)

  predicate HasBounds(w: Word) {
    w.bounds.Some?
  }

  /** The rectangle drawn for one bounded word: its box scaled to the display, in its colour. */
  function Cmd(w: Word, savedWordsStatus: map<string, bool>, s: Scale): DrawCommand
    requires w.bounds.Some?
  {
    DrawCommand(w, ToDisplay(w.bounds.value, s), BorderColor(savedWordsStatus, w))
  }

  /** The `forEach` over strange words: one rectangle per word that has bounds, in order. */
  function DrawCommands(strangeWords: seq<Word>, savedWordsStatus: map<string, bool>, s: Scale): (r: seq<DrawCommand>)
    ensures |r| == |Filter(strangeWords, HasBounds)|
    ensures forall i :: 0 <= i < |r| ==> (HasBounds(Filter(strangeWords, HasBounds)[i]) &&
      r[i] == Cmd(Filter(strangeWords, HasBounds)[i], savedWordsStatus, s))
    decreases |strangeWords|
  {
    if strangeWords == [] then []
    else
      var w := strangeWords[0];
      var rest := DrawCommands(strangeWords[1..], savedWordsStatus, s);
      if w.bounds.Some? then
        assert Filter(strangeWords, HasBounds) == [w] + Filter(strangeWords[1..], HasBounds);
        [Cmd(w, savedWordsStatus, s)] + rest
      else
        assert Filter(strangeWords, HasBounds) == Filter(strangeWords[1..], HasBounds);
        rest
  }

  /** What the composable emits: nothing for an empty list; otherwise a canvas with its rectangles
      and a tap handler. */
  datatype Overlay = NoOverlay | Canvas(commands: seq<DrawCommand>)

  function Render(words: seq<Word>, commonWords: set<string>, savedWordsStatus: map<string, bool>, s: Scale): (o: Overlay)
    ensures o.NoOverlay? <==> words == []
    ensures o.Canvas? ==> forall i :: 0 <= i < |o.commands| ==>
      o.commands[i].word in words && SWC.IsStrangeIn(commonWords, o.commands[i].word.word) && o.commands[i].word.bounds.Some?
  {
    if words == [] then NoOverlay
    else
      var strange := (w: Word) => SWC.IsStrangeIn(commonWords, w.word);
      var commands := DrawCommands(Filter(words, strange), savedWordsStatus, s);
      FilterMembershipAll(Filter(words, strange), HasBounds);
      FilterMembershipAll(words, strange);
      Canvas(commands)
  }

  /** Every strange, bounded word is drawn. */
  lemma RenderDrawsEveryBoundedStrangeWord(words: seq<Word>, commonWords: set<string>, savedWordsStatus: map<string, bool>, s: Scale, i: nat)
    requires i < |words| && SWC.IsStrangeIn(commonWords, words[i].word) && words[i].bounds.Some?
    ensures Render(words, commonWords, savedWordsStatus, s).Canvas?
    ensures exists k :: (0 <= k < |Render(words, commonWords, savedWordsStatus, s).commands| &&
      Render(words, commonWords, savedWordsStatus, s).commands[k].word == words[i])
  {
    var strangeWords := Filter(words, (w: Word) => SWC.IsStrangeIn(commonWords, w.word));
    FilterMembership(words, (w: Word) => SWC.IsStrangeIn(commonWords, w.word), words[i]);
    var k :| 0 <= k < |strangeWords| && strangeWords[k] == words[i];
    var bounded := Filter(strangeWords, HasBounds);
    FilterMembership(strangeWords, HasBounds, words[i]);
    var m :| 0 <= m < |bounded| && bounded[m] == words[i];
    assert DrawCommands(strangeWords, savedWordsStatus, s)[m].word == words[i];
  }
}
