/** What `Console.Draw` puts on the character grid, without the drawing:
    raw fixed-width wrapping of one entry into rows, the choice of the
    trailing entries that are shown, and the stacking of their rows.
    Widths and heights are whole character cells. */
module Viewport {

  /** One drawn text row: the grid row it is drawn at and its text. */
  datatype Row = Row(y: int, text: string)

  /** The rows one entry is drawn as at width `w` (`DrawString`): an entry
      that fits is one row, even when empty or exactly `w` long; a longer one
      is cut every `w` characters, all rows full except maybe the last. */
  function WrapRows(s: string, w: int): (rows: seq<string>)
    requires w >= 1
    ensures |rows| >= 1
    ensures |s| <= w ==> rows == [s]
    ensures forall i :: 0 <= i < |rows| ==> |rows[i]| <= w
    ensures forall i :: 0 <= i < |rows| - 1 ==> |rows[i]| == w
    ensures |s| > w ==> forall i :: 0 <= i < |rows| ==> rows[i] != []
    decreases |s|
  {
    if |s| <= w then [s] else [s[..w]] + WrapRows(s[w..], w)
  }

  function Concat(ss: seq<string>): string {
    if ss == [] then [] else ss[0] + Concat(ss[1..])
  }

  lemma {:induction false} ConcatAppend(a: seq<string>, b: seq<string>)
    ensures Concat(a + b) == Concat(a) + Concat(b)
  {
    if a != [] {
      assert (a + b)[1..] == a[1..] + b;
      ConcatAppend(a[1..], b);
    } else {
      assert a + b == b;
    }
  }

  /** Wrapping loses and adds nothing: the rows read back the entry. */
  lemma {:induction false} WrapRowsConcat(s: string, w: int)
    requires w >= 1
    ensures Concat(WrapRows(s, w)) == s
    decreases |s|
  {
    if |s| > w {
      WrapRowsConcat(s[w..], w);
      assert s == s[..w] + s[w..];
    } else {
      assert s + [] == s;
    }
  }

  /** A longer entry takes ceil(|s| / w) rows. */
  lemma {:induction false} WrapRowsCount(s: string, w: int)
    requires w >= 1 && |s| > w
    ensures (|WrapRows(s, w)| - 1) * w < |s| <= |WrapRows(s, w)| * w
    decreases |s|
  {
    var n := |WrapRows(s, w)|;
    if |s[w..]| > w {
      WrapRowsCount(s[w..], w);
      assert n == |WrapRows(s[w..], w)| + 1;
      assert (n - 1) * w == (n - 2) * w + w;
    } else {
      assert n == 2;
    }
  }

  lemma MulStep(k: int, w: int)
    requires k >= 1 && w >= 1
    ensures k * w == (k - 1) * w + w && (k - 1) * w >= 0
  {
  }

  /** There is a row `k` exactly when `k * w` is inside the entry (row 0
      always exists). */
  lemma {:induction false} WrapRowsCountAt(s: string, w: int, k: int)
    requires w >= 1 && k >= 0
    ensures k < |WrapRows(s, w)| <==> k == 0 || k * w < |s|
    decreases |s|
  {
    if k > 0 {
      MulStep(k, w);
      if |s| > w {
        WrapRowsCountAt(s[w..], w, k - 1);
      }
    }
  }

  /** Row `k` of an entry is the `w` characters from `lo == k * w` on,
      fewer for the last row. */
  lemma {:induction false} WrapRowsAt(s: string, w: int, k: int, lo: int)
    requires w >= 1 && 0 <= k < |WrapRows(s, w)| && lo == k * w
    ensures lo < |s| || k == 0
    ensures var hi := if lo + w > |s| then |s| else lo + w;
      0 <= lo <= hi <= |s| && WrapRows(s, w)[k] == s[lo..hi]
    decreases |s|
  {
    WrapRowsCountAt(s, w, k);
    if k > 0 {
      MulStep(k, w);
      var t := s[w..];
      WrapRowsAt(t, w, k - 1, lo - w);
      var hi' := if lo > |t| then |t| else lo;
      SliceShift(s, w, lo - w, hi');
    }
  }

  /** What one turn of `DrawString`'s loop needs about row `k`: where it
      starts and ends, and whether another row follows. */
  lemma PieceStep(s: string, w: int, k: int)
    requires w >= 1 && 0 <= k < |WrapRows(s, w)|
    ensures (k + 1) * w == k * w + w && k * w >= 0
    ensures k * w < |s| || k == 0
    ensures k + 1 < |WrapRows(s, w)| <==> k * w + w < |s|
    ensures var lo := k * w; var hi := if lo + w > |s| then |s| else lo + w;
      lo <= hi <= |s| && WrapRows(s, w)[k] == s[lo..hi]
  {
    WrapRowsAt(s, w, k, k * w);
    WrapRowsCountAt(s, w, k + 1);
    MulStep(k + 1, w);
  }

  /** A slice of the text after the first `w` characters. */
  lemma SliceShift(s: string, w: int, a: int, b: int)
    requires 0 <= w <= |s| && 0 <= a <= b <= |s| - w
    ensures s[w..][a..b] == s[a + w..b + w]
  {
  }

  /** Whether drawing `s` at width `w` ends: at width 0 a non-empty entry is
      cut into empty pieces forever. */
  predicate RowsDefined(s: string, w: int) {
    w != 0 || s == []
  }

  /** Whether drawing `s` at width `w` throws: at a negative width the first
      piece of a non-empty entry has a negative length. */
  predicate DrawThrows(s: string, w: int) {
    w < 0 && s != []
  }

  /** The rows `DrawString` draws for `s` at any width it ends for: the
      wrapped rows at a positive width; the single empty row at width 0;
      none at a negative width, where an empty entry draws nothing and a
      non-empty one throws before drawing. */
  function Rows(s: string, w: int): (rows: seq<string>)
    requires RowsDefined(s, w)
    ensures w >= 0 ==> |rows| >= 1
    ensures w < 0 ==> rows == []
    ensures w == 0 ==> rows == [[]]
    ensures w >= 1 ==> rows == WrapRows(s, w)
  {
    if w >= 1 then WrapRows(s, w) else if w == 0 then [s] else []
  }

  /** At every width it ends for, the rows read back the entry, unless
      drawing it throws. */
  lemma RowsConcat(s: string, w: int)
    requires RowsDefined(s, w) && !DrawThrows(s, w)
    ensures Concat(Rows(s, w)) == s
  {
    if w >= 1 {
      WrapRowsConcat(s, w);
    } else {
      assert Concat([s]) == s + Concat([]);
    }
  }

  /** `rows` drawn one under another from grid row `y` on. */
  function Place(rows: seq<string>, y: int): (r: seq<Row>)
    ensures |r| == |rows|
    ensures forall i :: 0 <= i < |r| ==> r[i].y == y + i && r[i].text == rows[i]
  {
    seq(|rows|, i requires 0 <= i < |rows| => Row(y + i, rows[i]))
  }

  /** The rows of `entries` stacked from grid row 0, each entry starting on
      the row after the previous one ended (`Draw`'s running `consoleLine`). */
  function Layout(entries: seq<string>, w: int): (r: seq<Row>)
    requires forall i :: 0 <= i < |entries| ==> RowsDefined(entries[i], w)
    ensures w >= 0 ==> |r| >= |entries|
    ensures forall i :: 0 <= i < |r| ==> r[i].y == i
  {
    if entries == [] then []
    else
      var pre := Layout(entries[..|entries| - 1], w);
      pre + Place(Rows(entries[|entries| - 1], w), |pre|)
  }

  /** At a negative width nothing is drawn at all. */
  lemma {:induction false} LayoutNegative(entries: seq<string>, w: int)
    requires w < 0
    ensures Layout(entries, w) == []
  {
    if entries != [] {
      LayoutNegative(entries[..|entries| - 1], w);
    }
  }

  function Texts(rows: seq<Row>): (r: seq<string>)
    ensures |r| == |rows|
    ensures forall i :: 0 <= i < |r| ==> r[i] == rows[i].text
  {
    seq(|rows|, i requires 0 <= i < |rows| => rows[i].text)
  }

  /** The stacked rows read back the shown entries, in order. */
  lemma {:induction false} LayoutConcat(entries: seq<string>, w: int)
    requires w >= 0 && forall i :: 0 <= i < |entries| ==> RowsDefined(entries[i], w)
    ensures Concat(Texts(Layout(entries, w))) == Concat(entries)
  {
    if entries != [] {
      var init := entries[..|entries| - 1];
      var last := entries[|entries| - 1];
      assert forall i :: 0 <= i < |init| ==> init[i] == entries[i];
      LayoutConcat(init, w);
      var pre := Layout(init, w);
      TextsPlace(pre, Rows(last, w), |pre|);
      RowsConcat(last, w);
      ConcatAppend(Texts(pre), Rows(last, w));
      ConcatSnoc(init, last);
      assert entries == init + [last];
    }
  }

  lemma TextsPlace(pre: seq<Row>, rows: seq<string>, y: int)
    ensures Texts(pre + Place(rows, y)) == Texts(pre) + rows
  {
  }

  lemma ConcatSnoc(init: seq<string>, last: string)
    ensures Concat(init + [last]) == Concat(init) + last
  {
    ConcatAppend(init, [last]);
    assert Concat([last]) == last + [];
  }

  /** `Draw`'s choice of entries: it skips all but the last `h - 1` of them
      (none when `h <= 1`), keeping their order. */
  function Visible(lines: seq<string>, h: int): (r: seq<string>)
    ensures |r| == if h <= 1 then 0 else if |lines| < h - 1 then |lines| else h - 1
    ensures r == lines[|lines| - |r|..]
  {
    var skip := if |lines| - (h - 1) < 0 then 0 else |lines| - (h - 1);
    lines[if skip > |lines| then |lines| else skip..]
  }
}
