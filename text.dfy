/**
 * The string operations the box renderers of span.py and table.py use:
 * repetition (`c * n`), `str.rjust`, `str.center`, `str.join`, `max` over
 * lengths, and the newline-joined text of a list of lines.
 */
module Text {

  function Max(a: nat, b: nat): nat {
    if a >= b then a else b
  }

  /** `c * n`: `n` copies of the character `c`. */
  function Repeat(c: char, n: nat): (r: string)
    ensures |r| == n
    ensures forall i :: 0 <= i < n ==> r[i] == c
  {
    if n == 0 then [] else [c] + Repeat(c, n - 1)
  }

  /** `s.rjust(w)`: `s` preceded by enough spaces to fill `w` characters. */
  function RJust(s: string, w: nat): (r: string)
    ensures |r| == Max(|s|, w)
    ensures r[|r| - |s|..] == s
    ensures forall i :: 0 <= i < |r| - |s| ==> r[i] == ' '
  {
    if |s| >= w then s else Repeat(' ', w - |s|) + s
  }

  /**
   * The left margin `str.center` gives `s` in a field of width `w`: half the
   * spare room, rounded up when both the spare room and `w` are odd.
   */
  function CenterLeft(len: nat, w: nat): nat
    requires len <= w
  {
    var marg := w - len;
    marg / 2 + (if marg % 2 == 1 && w % 2 == 1 then 1 else 0)
  }

  /** `s.center(w)`: `s` with spaces on both sides filling `w` characters. */
  function Center(s: string, w: nat): (r: string)
    ensures |r| == Max(|s|, w)
    ensures |s| <= w ==>
      var left := CenterLeft(|s|, w);
      left + |s| <= w &&
      r[left..left + |s|] == s &&
      (forall i :: 0 <= i < left ==> r[i] == ' ') &&
      (forall i :: left + |s| <= i < w ==> r[i] == ' ') &&
      w - |s| <= 2 * left + 1 && 2 * left <= w - |s| + 1
  {
    if |s| >= w then s
    else
      var left := CenterLeft(|s|, w);
      Repeat(' ', left) + s + Repeat(' ', w - |s| - left)
  }

  /** `sep.join(parts)`. */
  function JoinWith(sep: string, parts: seq<string>): string {
    if |parts| == 0 then ""
    else if |parts| == 1 then parts[0]
    else parts[0] + sep + JoinWith(sep, parts[1..])
  }

  /** The total length of a list of strings. */
  function TotalLength(parts: seq<string>): nat {
    if |parts| == 0 then 0 else |parts[0]| + TotalLength(parts[1..])
  }

  /** The length of `sep.join(parts)`: the parts and one separator between each two. */
  lemma {:induction false} JoinWithLength(sep: string, parts: seq<string>)
    requires |parts| > 0
    ensures |JoinWith(sep, parts)| == TotalLength(parts) + |sep| * (|parts| - 1)
  {
    if |parts| > 1 {
      JoinWithLength(sep, parts[1..]);
    }
  }

  /** `max(map(len, strs))`, and 0 for no strings. */
  function MaxLen(strs: seq<string>): (m: nat)
    ensures forall i :: 0 <= i < |strs| ==> |strs[i]| <= m
    ensures |strs| > 0 ==> exists i :: 0 <= i < |strs| && |strs[i]| == m
  {
    if |strs| == 0 then 0
    else
      var rest := MaxLen(strs[1..]);
      assert forall i :: 1 <= i < |strs| ==> strs[i] == strs[1..][i - 1];
      if |strs[0]| >= rest then |strs[0]| else rest
  }

  /** The text of a list of lines: the lines joined by newlines, with none after the last. */
  function Unlines(lines: seq<string>): string {
    if |lines| == 0 then ""
    else if |lines| == 1 then lines[0]
    else Unlines(lines[..|lines| - 1]) + "\n" + lines[|lines| - 1]
  }

  /** Appending one line to a non-empty text adds a newline and the line. */
  lemma UnlinesSnoc(lines: seq<string>, line: string)
    requires |lines| > 0
    ensures Unlines(lines + [line]) == Unlines(lines) + "\n" + line
  {
    assert (lines + [line])[..|lines|] == lines;
  }

  /** Appending a line and a newline to a text that ends one line list with a newline. */
  lemma UnlinesSnocText(text: string, lines: seq<string>, line: string)
    requires |lines| > 0
    requires text == Unlines(lines) + "\n"
    ensures text + (line + "\n") == Unlines(lines + [line]) + "\n"
  {
    UnlinesSnoc(lines, line);
  }

  /**
   * The first lines `head`, then the first `i` of `rows` with the
   * delimiter between each two of them.
   */
  function Stacked(head: seq<string>, rows: seq<string>, delimiter: string, i: nat): seq<string>
    requires i <= |rows|
  {
    if i == 0 then head
    else Stacked(head, rows, delimiter, i - 1) + (if i - 1 != 0 then [delimiter] else []) + [rows[i - 1]]
  }

  /** The layout of stacked rows: the head first, row `k` at `|head| + 2k`, delimiters between. */
  lemma {:induction false} StackedShape(head: seq<string>, rows: seq<string>, delimiter: string, i: nat)
    requires i <= |rows|
    ensures |Stacked(head, rows, delimiter, i)| == |head| + (if i == 0 then 0 else 2 * i - 1)
    ensures Stacked(head, rows, delimiter, i)[..|head|] == head
    ensures forall k :: 0 <= k < i ==> Stacked(head, rows, delimiter, i)[|head| + 2 * k] == rows[k]
    ensures forall k :: 0 <= k && k + 1 < i ==> Stacked(head, rows, delimiter, i)[|head| + 2 * k + 1] == delimiter
  {
    if i > 0 {
      StackedShape(head, rows, delimiter, i - 1);
      var before := Stacked(head, rows, delimiter, i - 1);
      var lines := Stacked(head, rows, delimiter, i);
      assert lines[..|before|] == before;
      forall k | 0 <= k < i
        ensures lines[|head| + 2 * k] == rows[k]
      {
        if k < i - 1 {
          assert lines[|head| + 2 * k] == before[|head| + 2 * k];
        }
      }
      forall k | 0 <= k && k + 1 < i
        ensures lines[|head| + 2 * k + 1] == delimiter
      {
        if k + 2 < i {
          assert lines[|head| + 2 * k + 1] == before[|head| + 2 * k + 1];
        }
      }
    }
  }

  /** Stacking lines of one width keeps that width. */
  lemma {:induction false} StackedWidth(head: seq<string>, rows: seq<string>, delimiter: string, i: nat, w: nat)
    requires i <= |rows|
    requires forall j :: 0 <= j < |head| ==> |head[j]| == w
    requires forall k :: 0 <= k < |rows| ==> |rows[k]| == w
    requires |delimiter| == w
    ensures forall j :: 0 <= j < |Stacked(head, rows, delimiter, i)| ==> |Stacked(head, rows, delimiter, i)[j]| == w
  {
    if i > 0 {
      StackedWidth(head, rows, delimiter, i - 1, w);
      var before := Stacked(head, rows, delimiter, i - 1);
      var added := (if i - 1 != 0 then [delimiter] else []) + [rows[i - 1]];
      assert Stacked(head, rows, delimiter, i) == before + added;
      assert forall j :: 0 <= j < |added| ==> |added[j]| == w;
    }
  }

  /**
   * A framed list of lines: the top line, then each of the first `i` items
   * followed by the delimiter, or by the bottom line after the last item.
   */
  function Frame(top: string, items: seq<string>, delimiter: string, bottom: string, i: nat): seq<string>
    requires i <= |items|
  {
    if i == 0 then [top]
    else
      Frame(top, items, delimiter, bottom, i - 1) +
      [items[i - 1], if i < |items| then delimiter else bottom]
  }

  /** Adding one item to a frame adds its line and the line after it to the text. */
  lemma FrameStep(top: string, items: seq<string>, delimiter: string, bottom: string, i: nat)
    requires i < |items|
    ensures Unlines(Frame(top, items, delimiter, bottom, i + 1)) ==
            Unlines(Frame(top, items, delimiter, bottom, i)) + "\n" + items[i] + "\n" +
            (if i + 1 < |items| then delimiter else bottom)
  {
    var before := Frame(top, items, delimiter, bottom, i);
    var after := if i + 1 < |items| then delimiter else bottom;
    assert |before| > 0;
    UnlinesSnoc(before, items[i]);
    UnlinesSnoc(before + [items[i]], after);
    assert before + [items[i]] + [after] == Frame(top, items, delimiter, bottom, i + 1);
  }

  /**
   * Appending item `i`, a newline and then either the delimiter with a newline
   * or, after the last item, the bottom line, to the text of the frame so far
   * followed by a newline, gives the text of the next frame, followed by a
   * newline unless the frame is complete.
   */
  lemma FrameTextStep(text: string, top: string, items: seq<string>, delimiter: string, bottom: string, i: nat)
    requires i < |items|
    requires text == Unlines(Frame(top, items, delimiter, bottom, i)) + "\n"
    ensures i + 1 < |items| ==>
      text + items[i] + "\n" + (delimiter + "\n") == Unlines(Frame(top, items, delimiter, bottom, i + 1)) + "\n"
    ensures i + 1 == |items| ==>
      text + items[i] + "\n" + bottom == Unlines(Frame(top, items, delimiter, bottom, i + 1))
  {
    FrameStep(top, items, delimiter, bottom, i);
    var u := Unlines(Frame(top, items, delimiter, bottom, i));
    if i + 1 < |items| {
      assert text + items[i] + "\n" + (delimiter + "\n") == u + "\n" + items[i] + "\n" + delimiter + "\n";
    }
  }

  /**
   * The layout of a frame of `i` items: 2i+1 lines, the top line first, item
   * `j` on line 2j+1 and the delimiter (or, after the last item, the bottom
   * line) on line 2j+2.
   */
  lemma {:induction false} FrameShape(top: string, items: seq<string>, delimiter: string, bottom: string, i: nat)
    requires i <= |items|
    ensures |Frame(top, items, delimiter, bottom, i)| == 2 * i + 1
    ensures Frame(top, items, delimiter, bottom, i)[0] == top
    ensures forall j :: 0 <= j < i ==> Frame(top, items, delimiter, bottom, i)[2 * j + 1] == items[j]
    ensures forall j :: 0 <= j < i ==>
      Frame(top, items, delimiter, bottom, i)[2 * j + 2] == if j + 1 < |items| then delimiter else bottom
  {
    if i > 0 {
      FrameShape(top, items, delimiter, bottom, i - 1);
      var before := Frame(top, items, delimiter, bottom, i - 1);
      var lines := Frame(top, items, delimiter, bottom, i);
      assert lines == before + [items[i - 1], if i < |items| then delimiter else bottom];
      forall j | 0 <= j < i
        ensures lines[2 * j + 1] == items[j]
        ensures lines[2 * j + 2] == if j + 1 < |items| then delimiter else bottom
      {
        if j < i - 1 {
          assert lines[2 * j + 1] == before[2 * j + 1];
          assert lines[2 * j + 2] == before[2 * j + 2];
        }
      }
    }
  }

  /** When the top, delimiter, bottom and every item have width `w`, so has every line of the frame. */
  lemma FrameWidth(top: string, items: seq<string>, delimiter: string, bottom: string, w: nat)
    requires |top| == |delimiter| == |bottom| == w
    requires forall j :: 0 <= j < |items| ==> |items[j]| == w
    ensures forall k :: 0 <= k < |Frame(top, items, delimiter, bottom, |items|)| ==>
      |Frame(top, items, delimiter, bottom, |items|)[k]| == w
  {
    var lines := Frame(top, items, delimiter, bottom, |items|);
    FrameShape(top, items, delimiter, bottom, |items|);
    forall k | 0 <= k < |lines|
      ensures |lines[k]| == w
    {
      if k > 0 {
        var j := (k - 1) / 2;
        if k % 2 == 1 {
          assert k == 2 * j + 1 && lines[k] == items[j];
        } else {
          assert k == 2 * j + 2 && lines[k] == if j + 1 < |items| then delimiter else bottom;
        }
      }
    }
  }
}
