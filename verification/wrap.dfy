/**
 * `ImageGenerator.wrap_text`: the product name split into at most three lines for the
 * image. Line width is estimated at 8 px per character; a short name is left alone; a
 * third line that would not hold the rest of the name is cut to 15 characters and "...".
 */
module TextWrap {
  import opened Text

  const ShortText := 25
  const CharWidth := 8
  const CapLength := 15

  /** A single line is returned as a string, anything else as a list of lines. */
  datatype Wrapped = Single(line: string) | Lines(lines: seq<string>)

  function LinesOf(w: Wrapped): seq<string> {
    match w
    case Single(line) => [line]
    case Lines(lines) => lines
  }

  /** `len(line) * 8 <= max_width` */
  predicate Fits(line: string, maxWidth: int) {
    |line| * CharWidth <= maxWidth
  }

  /** The last line: the remaining text, cut to 15 characters and "..." when longer. */
  function Cap(rest: string): string {
    if |rest| > CapLength then rest[..CapLength] + "..." else rest
  }

  /**
   * Where the words after the one that overflowed the second line are taken from.
   * `FirstOccurrence` is what app.py does (`words.index(word) + 1`, which finds the word's
   * first occurrence); `CurrentWord` starts right after the word the loop is at.
   */
  datatype RemainderRule = FirstOccurrence | CurrentWord

  function RestStart(rule: RemainderRule, ws: seq<string>, i: nat): (k: nat)
    requires i < |ws|
    ensures k <= |ws|
  {
    match rule
    case FirstOccurrence => FirstIndex(ws, ws[i]) + 1
    case CurrentWord => i + 1
  }

  /** `' '.join(current_line + words[...:])` once the loop is at word `i`. */
  function Remainder(rule: RemainderRule, ws: seq<string>, i: nat): string
    requires i < |ws|
  {
    Join([ws[i]] + ws[RestStart(rule, ws, i)..])
  }

  /**
   * The loop of `wrap_text` from word `i` on, with the committed `lines` and the words of
   * the line being filled; the result is the final list of lines.
   */
  function Fill(ws: seq<string>, maxWidth: int, rule: RemainderRule, i: nat, lines: seq<string>, current: seq<string>): seq<string>
    requires i <= |ws|
    decreases |ws| - i
  {
    if i == |ws| then
      if current != [] && |lines| < 3 then lines + [Join(current)] else lines
    else
      var word := ws[i];
      if Fits(Join(current + [word]), maxWidth) then
        Fill(ws, maxWidth, rule, i + 1, lines, current + [word])
      else
        var committed := if current != [] then lines + [Join(current)] else lines;
        if |committed| >= 2 then committed + [Cap(Remainder(rule, ws, i))]
        else Fill(ws, maxWidth, rule, i + 1, committed, [word])
  }

  function Shape(lines: seq<string>): Wrapped {
    if |lines| == 1 then Single(lines[0]) else Lines(lines)
  }

  /** `wrap_text` with a given remainder rule. */
  function WrapWith(text: string, maxWidth: int, rule: RemainderRule): Wrapped {
    if |text| <= ShortText then Single(text)
    else Shape(Fill(Words(text), maxWidth, rule, 0, [], []))
  }

  /** `wrap_text` as intended: the cut line continues from the word that overflowed. */
  function Wrap(text: string, maxWidth: int): Wrapped {
    WrapWith(text, maxWidth, CurrentWord)
  }

  /**
   * The `wrap_text` loop: words are added to the current line while it fits; otherwise the
   * line is committed and a new one started, and once two lines are committed the rest of
   * the text becomes the last line and the loop stops. The rest is taken, as app.py takes
   * it, from after the first occurrence of the overflowing word (`words.index(word) + 1`).
   */
  method WrapText(text: string, maxWidth: int) returns (w: Wrapped)
    ensures w == WrapWith(text, maxWidth, FirstOccurrence)
  {
    if |text| <= ShortText {
      return Single(text);
    }
    var words := Words(text);
    var lines: seq<string> := [];
    var current: seq<string> := [];
    var i := 0;
    while i < |words|
      invariant i <= |words|
      invariant Fill(words, maxWidth, FirstOccurrence, i, lines, current) == Fill(words, maxWidth, FirstOccurrence, 0, [], [])
      invariant |lines| <= 1
    {
      var word := words[i];
      var testLine := Join(current + [word]);
      if |testLine| * CharWidth <= maxWidth {
        current := current + [word];
      } else {
        if current != [] {
          lines := lines + [Join(current)];
        }
        current := [word];
        if |lines| >= 2 {
          var remaining := Join(current + words[FirstIndex(words, word) + 1..]);
          if |remaining| > CapLength {
            lines := lines + [remaining[..CapLength] + "..."];
          } else {
            lines := lines + [remaining];
          }
          break;
        }
      }
      i := i + 1;
    }
    if current != [] && |lines| < 3 {
      lines := lines + [Join(current)];
    }
    if |lines| == 1 {
      w := Single(lines[0]);
    } else {
      w := Lines(lines);
    }
  }

  /**
   * What holds of the loop's state at the top of each iteration. A committed first line
   * holds the first `k1` words and could not take word `k1`.
   */
  predicate FillState(ws: seq<string>, maxWidth: int, i: nat, lines: seq<string>, current: seq<string>, k1: nat) {
    i <= |ws| && |lines| <= 1 &&
    (|lines| == 1 ==> 0 < k1 < i && lines[0] == Join(ws[..k1]) && !Fits(lines[0] + " " + ws[k1], maxWidth)) &&
    (i == 0 ==> lines == [] && current == []) &&
    (i > 0 ==> current != [] && Join(lines + [Join(current)]) == Join(ws[..i])) &&
    (forall j :: 0 <= j < |lines| ==> Fits(lines[j], maxWidth) || lines[j] in ws) &&
    (current != [] ==> Fits(Join(current), maxWidth) || (|current| == 1 && current[0] in ws))
  }

  /** Appending one word to a non-empty list adds it after a space. */
  lemma JoinSnoc(a: seq<string>, w: string)
    requires a != []
    ensures Join(a + [w]) == Join(a) + " " + w
  {
    JoinAppend(a, [w]);
  }

  /**
   * What `wrap_text` promises of the lines `L` it makes of the words `ws`, under either
   * remainder rule: at most three; with two or fewer nothing was cut and they hold the whole
   * text; with three, the first two hold the text before some word `k` and the third is the
   * rule's remainder from `k`, capped. Each of the first two lines fits the width or is a
   * single word, and the lines are greedy: a first line followed by another holds the first
   * `k1` words and could not take word `k1`, and a cut second line could not take word `k`.
   */
  predicate WrapOutcome(ws: seq<string>, maxWidth: int, rule: RemainderRule, L: seq<string>) {
    |L| <= 3 &&
    (|L| <= 2 ==> Join(L) == Join(ws)) &&
    (|L| >= 2 ==> exists k1 :: 0 < k1 < |ws| && L[0] == Join(ws[..k1]) && !Fits(L[0] + " " + ws[k1], maxWidth)) &&
    (|L| == 3 ==> exists k :: 0 < k < |ws| && ThirdLine(ws, maxWidth, rule, L, k)) &&
    (forall j :: 0 <= j < |L| && j < 2 ==> Fits(L[j], maxWidth) || L[j] in ws)
  }

  /**
   * Three lines cut at word `k`, which the second line could not take: the text before it,
   * then the rule's remainder, capped.
   */
  predicate ThirdLine(ws: seq<string>, maxWidth: int, rule: RemainderRule, L: seq<string>, k: nat)
    requires |L| == 3 && k < |ws|
  {
    Join(L[..2]) == Join(ws[..k]) && !Fits(L[1] + " " + ws[k], maxWidth) && L[2] == Cap(Remainder(rule, ws, k))
  }

  /** Three lines cut at word `k` with nothing lost or repeated: the text up to it, then the rest of it capped. */
  predicate CutAt(ws: seq<string>, L: seq<string>, k: nat)
    requires |L| == 3 && k <= |ws|
  {
    Join(L[..2]) + " " + Join(ws[k..]) == Join(ws) && L[2] == Cap(Join(ws[k..]))
  }

  /** Adding a word that fits to the current line keeps the loop's state. */
  lemma FillStateAppend(ws: seq<string>, maxWidth: int, i: nat, lines: seq<string>, current: seq<string>, k1: nat)
    requires FillState(ws, maxWidth, i, lines, current, k1) && i < |ws|
    requires Fits(Join(current + [ws[i]]), maxWidth)
    ensures FillState(ws, maxWidth, i + 1, lines, current + [ws[i]], k1)
  {
    var word := ws[i];
    assert ws[..i + 1] == ws[..i] + [word];
    if i > 0 {
      JoinSnoc(ws[..i], word);
      JoinSnoc(current, word);
      if lines != [] {
        JoinSnoc(lines, Join(current));
        JoinSnoc(lines, Join(current) + " " + word);
      } else {
        assert lines + [Join(current)] == [Join(current)];
        assert lines + [Join(current + [word])] == [Join(current + [word])];
      }
    } else {
      assert current + [word] == [word];
      assert ws[..1] == [word];
    }
  }

  /** Committing the current line and starting a new one with the word keeps the loop's state. */
  lemma FillStateCommit(ws: seq<string>, maxWidth: int, i: nat, lines: seq<string>, current: seq<string>, k1: nat)
    requires FillState(ws, maxWidth, i, lines, current, k1) && i < |ws|
    requires !Fits(Join(current + [ws[i]]), maxWidth)
    requires var committed := if current != [] then lines + [Join(current)] else lines; |committed| < 2
    ensures var committed := if current != [] then lines + [Join(current)] else lines;
      FillState(ws, maxWidth, i + 1, committed, [ws[i]], if current != [] then i else k1)
  {
    var word := ws[i];
    var committed := if current != [] then lines + [Join(current)] else lines;
    assert ws[..i + 1] == ws[..i] + [word];
    if i > 0 {
      JoinSnoc(ws[..i], word);
      JoinSnoc(committed, word);
      JoinSnoc(current, word);
      assert lines == [] && committed == [Join(current)];
      LineOk(ws, maxWidth, current);
    } else {
      assert ws[..1] == [word];
    }
  }

  /** A line that fits, or a line of one word, is committed as a fitting line or as that word. */
  lemma LineOk(ws: seq<string>, maxWidth: int, current: seq<string>)
    requires current != []
    requires Fits(Join(current), maxWidth) || (|current| == 1 && current[0] in ws)
    ensures Fits(Join(current), maxWidth) || Join(current) in ws
  {
  }

  /** Overflowing with two lines committed ends the loop as `WrapOutcome` says. */
  lemma FillCutOutcome(ws: seq<string>, maxWidth: int, rule: RemainderRule, i: nat, lines: seq<string>, current: seq<string>, k1: nat)
    requires FillState(ws, maxWidth, i, lines, current, k1) && i < |ws|
    requires !Fits(Join(current + [ws[i]]), maxWidth)
    requires var committed := if current != [] then lines + [Join(current)] else lines; |committed| >= 2
    ensures var committed := if current != [] then lines + [Join(current)] else lines;
      WrapOutcome(ws, maxWidth, rule, committed + [Cap(Remainder(rule, ws, i))])
  {
    var committed := lines + [Join(current)];
    var L := committed + [Cap(Remainder(rule, ws, i))];
    assert L[..2] == committed;
    JoinSnoc(current, ws[i]);
    assert ThirdLine(ws, maxWidth, rule, L, i);
    LineOk(ws, maxWidth, current);
    assert L[0] == lines[0] && L[1] == Join(current);
    assert 0 < k1 < |ws| && L[0] == Join(ws[..k1]) && !Fits(L[0] + " " + ws[k1], maxWidth);
  }

  /** Under the current-word rule a third line continues the text exactly where the first two stop. */
  lemma ThirdLineContinues(ws: seq<string>, maxWidth: int, L: seq<string>, k: nat)
    requires |L| == 3 && 0 < k < |ws| && ThirdLine(ws, maxWidth, CurrentWord, L, k)
    ensures CutAt(ws, L, k)
  {
    assert [ws[k]] + ws[k + 1..] == ws[k..];
    assert ws == ws[..k] + ws[k..];
    JoinAppend(ws[..k], ws[k..]);
  }

  /** Running out of words ends the loop as `WrapOutcome` says. */
  lemma FillEndOutcome(ws: seq<string>, maxWidth: int, rule: RemainderRule, lines: seq<string>, current: seq<string>, k1: nat)
    requires FillState(ws, maxWidth, |ws|, lines, current, k1)
    ensures WrapOutcome(ws, maxWidth, rule, Fill(ws, maxWidth, rule, |ws|, lines, current))
  {
    if |ws| > 0 {
      assert ws[..|ws|] == ws;
      LineOk(ws, maxWidth, current);
      if lines != [] {
        var L := lines + [Join(current)];
        assert L[0] == lines[0];
        assert 0 < k1 < |ws| && L[0] == Join(ws[..k1]) && !Fits(L[0] + " " + ws[k1], maxWidth);
      }
    }
  }

  /** From any state of the loop, the lines it ends with are as `WrapOutcome` says. */
  lemma {:induction false} FillFacts(ws: seq<string>, maxWidth: int, rule: RemainderRule, i: nat, lines: seq<string>, current: seq<string>, k1: nat)
    requires FillState(ws, maxWidth, i, lines, current, k1)
    ensures WrapOutcome(ws, maxWidth, rule, Fill(ws, maxWidth, rule, i, lines, current))
    decreases |ws| - i
  {
    if i == |ws| {
      FillEndOutcome(ws, maxWidth, rule, lines, current, k1);
    } else {
      var word := ws[i];
      if Fits(Join(current + [word]), maxWidth) {
        FillStateAppend(ws, maxWidth, i, lines, current, k1);
        FillFacts(ws, maxWidth, rule, i + 1, lines, current + [word], k1);
      } else {
        var committed := if current != [] then lines + [Join(current)] else lines;
        if |committed| >= 2 {
          FillCutOutcome(ws, maxWidth, rule, i, lines, current, k1);
        } else {
          FillStateCommit(ws, maxWidth, i, lines, current, k1);
          FillFacts(ws, maxWidth, rule, i + 1, committed, [word], if current != [] then i else k1);
        }
      }
    }
  }

  /**
   * `wrap_text`, as written or as intended: a name of at most 25 characters comes back
   * unchanged; otherwise the lines are as `WrapOutcome` says, returned as a single string
   * exactly when there is one.
   */
  lemma WrapFacts(text: string, maxWidth: int, rule: RemainderRule)
    ensures |text| <= ShortText ==> WrapWith(text, maxWidth, rule) == Single(text)
    ensures |text| > ShortText ==>
      WrapOutcome(Words(text), maxWidth, rule, LinesOf(WrapWith(text, maxWidth, rule))) &&
      (WrapWith(text, maxWidth, rule).Single? <==> |LinesOf(WrapWith(text, maxWidth, rule))| == 1)
  {
    if |text| > ShortText {
      FillFacts(Words(text), maxWidth, rule, 0, [], [], 0);
    }
  }

  /**
   * The intended `wrap_text`: when the name is cut, the third line is exactly the text the
   * first two lines leave over, capped, so no word is lost or shown twice.
   */
  lemma WrapContinuesAfterCut(text: string, maxWidth: int)
    ensures |LinesOf(Wrap(text, maxWidth))| == 3 ==>
      exists k :: 0 < k < |Words(text)| && CutAt(Words(text), LinesOf(Wrap(text, maxWidth)), k)
  {
    WrapFacts(text, maxWidth, CurrentWord);
    var L := LinesOf(Wrap(text, maxWidth));
    var ws := Words(text);
    if |text| > ShortText {
      OutcomeContinues(ws, maxWidth, L);
    }
    assert |L| == 3 ==> exists k :: 0 < k < |ws| && CutAt(ws, L, k);
  }

  lemma OutcomeContinues(ws: seq<string>, maxWidth: int, L: seq<string>)
    requires WrapOutcome(ws, maxWidth, CurrentWord, L)
    ensures |L| == 3 ==> exists k :: 0 < k < |ws| && CutAt(ws, L, k)
  {
    if |L| == 3 {
      var k :| 0 < k < |ws| && ThirdLine(ws, maxWidth, CurrentWord, L, k);
      ThirdLineContinues(ws, maxWidth, L, k);
    }
  }

  /** The two remainder rules agree whenever the overflowing word has not appeared before. */
  lemma RemainderRulesAgree(ws: seq<string>, i: nat)
    requires i < |ws| && ws[i] !in ws[..i]
    ensures Remainder(FirstOccurrence, ws, i) == Remainder(CurrentWord, ws, i)
  {
    var k := FirstIndex(ws, ws[i]);
  }

  /**
   * app.py takes the words after the overflowing one from `words.index(word) + 1`, that is
   * after the word's FIRST occurrence. When the word appeared earlier, the third line
   * repeats text already shown: here it starts over with "aaaa bbbb" instead of going on
   * with "cccc dddd". The name is "aaaa bbbb aaaa cccc dddd eeee", given as its words
   * joined by single spaces.
   */
  lemma FirstOccurrenceRepeatsWords(text: string)
    requires text == Join(["aaaa", "bbbb", "aaaa", "cccc", "dddd", "eeee"])
    ensures WrapWith(text, 40, FirstOccurrence) == Lines(["aaaa", "bbbb", "aaaa bbbb aaaa ..."])
    ensures Wrap(text, 40) == Lines(["aaaa", "bbbb", "aaaa cccc dddd ..."])
  {
    ExampleWords(text);
    assert |text| > ShortText;
    ExampleLines();
  }

  /** The example's words are the words of the example name. */
  lemma ExampleWords(text: string)
    requires text == Join(["aaaa", "bbbb", "aaaa", "cccc", "dddd", "eeee"])
    ensures Words(text) == ["aaaa", "bbbb", "aaaa", "cccc", "dddd", "eeee"]
  {
    WordsOfJoin(["aaaa", "bbbb", "aaaa", "cccc", "dddd", "eeee"]);
  }

  /** A remainder longer than the cap keeps its first 15 characters and gets "...". */
  lemma CapOfLong(head: string, tail: string)
    requires |head| == CapLength && tail != []
    ensures Cap(head + tail) == head + "..."
  {
    assert (head + tail)[..CapLength] == head;
  }

  lemma ExampleLines()
    ensures var ws := ["aaaa", "bbbb", "aaaa", "cccc", "dddd", "eeee"];
      Fill(ws, 40, FirstOccurrence, 0, [], []) == ["aaaa", "bbbb", "aaaa bbbb aaaa ..."] &&
      Fill(ws, 40, CurrentWord, 0, [], []) == ["aaaa", "bbbb", "aaaa cccc dddd ..."]
  {
    ExampleFill(FirstOccurrence);
    FirstOccurrenceExampleRest();
    ExampleFill(CurrentWord);
    CurrentWordExampleRest();
  }

  /** The loop on the words of the example: one word per line, then the cut at the third word. */
  lemma ExampleFill(rule: RemainderRule)
    ensures var ws := ["aaaa", "bbbb", "aaaa", "cccc", "dddd", "eeee"];
      Fill(ws, 40, rule, 0, [], []) == ["aaaa", "bbbb", Cap(Remainder(rule, ws, 2))]
  {
    var ws := ["aaaa", "bbbb", "aaaa", "cccc", "dddd", "eeee"];
    assert Join([] + ["aaaa"]) == "aaaa";
    assert Join(["aaaa", "bbbb"]) == "aaaa bbbb";
    assert Join(["bbbb", "aaaa"]) == "bbbb aaaa";
    assert Fill(ws, 40, rule, 0, [], []) == Fill(ws, 40, rule, 1, [], ["aaaa"]);
    assert Fill(ws, 40, rule, 1, [], ["aaaa"]) == Fill(ws, 40, rule, 2, ["aaaa"], ["bbbb"]);
  }

  /**
   * When the word that overflows the second line is the name's first word again, app.py's
   * remainder starts over from the beginning of the name.
   */
  lemma RepeatedFirstWordRestarts(a: string, b: string, c: string, d: string, e: string)
    ensures Remainder(FirstOccurrence, [a, b, a, c, d, e], 2) == Join([a, b, a, c, d, e])
    ensures Remainder(CurrentWord, [a, b, a, c, d, e], 2) == Join([a, c, d, e])
  {
    var ws := [a, b, a, c, d, e];
    assert FirstIndex(ws, a) == 0;
    assert [a] + ws[1..] == ws;
    assert [a] + ws[3..] == [a, c, d, e];
  }

  lemma FirstOccurrenceExampleRest()
    ensures Cap(Remainder(FirstOccurrence, ["aaaa", "bbbb", "aaaa", "cccc", "dddd", "eeee"], 2)) == "aaaa bbbb aaaa ..."
  {
    var ws := ["aaaa", "bbbb", "aaaa", "cccc", "dddd", "eeee"];
    RepeatedFirstWordRestarts("aaaa", "bbbb", "cccc", "dddd", "eeee");
    assert ws == ["aaaa", "bbbb", "aaaa"] + ["cccc", "dddd", "eeee"];
    JoinAppend(["aaaa", "bbbb", "aaaa"], ["cccc", "dddd", "eeee"]);
    assert Join(["bbbb", "aaaa"]) == "bbbb aaaa";
    assert Join(["aaaa", "bbbb", "aaaa"]) == "aaaa bbbb aaaa";
    var tail := Join(["cccc", "dddd", "eeee"]);
    assert tail != [] by { assert tail[0] == 'c'; }
    assert Join(ws) == "aaaa bbbb aaaa " + tail;
    CapOfLong("aaaa bbbb aaaa ", tail);
  }

  lemma CurrentWordExampleRest()
    ensures Cap(Remainder(CurrentWord, ["aaaa", "bbbb", "aaaa", "cccc", "dddd", "eeee"], 2)) == "aaaa cccc dddd ..."
  {
    RepeatedFirstWordRestarts("aaaa", "bbbb", "cccc", "dddd", "eeee");
    JoinAppend(["aaaa", "cccc", "dddd"], ["eeee"]);
    assert ["aaaa", "cccc", "dddd"] + ["eeee"] == ["aaaa", "cccc", "dddd", "eeee"];
    assert Join(["cccc", "dddd"]) == "cccc dddd";
    assert Join(["aaaa", "cccc", "dddd"]) == "aaaa cccc dddd";
    assert Join(["aaaa", "cccc", "dddd", "eeee"]) == "aaaa cccc dddd " + "eeee";
    CapOfLong("aaaa cccc dddd ", "eeee");
  }
}
