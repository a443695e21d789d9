/** The export format of the point buffer: one point per line, "x,y,z\n", no header.
    The rendering of one float (Java's StringBuilder.append(float)) is a parameter
    `fmt`; everything else about the text is fixed here. The module also gives a
    reader for that format and proves that reading the text back recovers every
    point, and describes the batches in which the text is handed to the writer. */
module TextExport {

  /** The exporter hands its text to the writer after every point whose index is a
      multiple of this, and once more at the end for any remainder. */
  const FLUSH_INTERVAL: nat := 10000

  /** A float rendering that never produces the two separators of the format. */
  ghost predicate SeparatorFree(fmt: real -> string)
  {
    forall x :: ',' !in fmt(x) && '\n' !in fmt(x)
  }

  lemma NoSeparators(fmt: real -> string, x: real)
    requires SeparatorFree(fmt)
    ensures ',' !in fmt(x) && '\n' !in fmt(x)
  {
  }

  /** Point i of the packed float stream s, without its line terminator. */
  function LineBody(s: seq<real>, fmt: real -> string, i: nat): string
    requires 3 * i + 3 <= |s|
  {
    fmt(s[3 * i]) + "," + fmt(s[3 * i + 1]) + "," + fmt(s[3 * i + 2])
  }

  /** Point i of s as one line of the export file. */
  function Line(s: seq<real>, fmt: real -> string, i: nat): string
    requires 3 * i + 3 <= |s|
  {
    LineBody(s, fmt, i) + "\n"
  }

  /** The lines of points lo .. hi-1, in order; empty when hi <= lo. */
  function Lines(s: seq<real>, fmt: real -> string, lo: nat, hi: nat): string
    requires 3 * hi <= |s|
    decreases hi - lo
  {
    if hi <= lo then "" else Lines(s, fmt, lo, hi - 1) + Line(s, fmt, hi - 1)
  }

  /** The whole export text of the first n points of s. */
  function Text(s: seq<real>, fmt: real -> string, n: nat): string
    requires 3 * n <= |s|
  {
    Lines(s, fmt, 0, n)
  }

  /** The text of a sequence of writes, in order. */
  function Concat(chunks: seq<string>): string
  {
    if chunks == [] then "" else Concat(chunks[..|chunks| - 1]) + chunks[|chunks| - 1]
  }

  /** The index of the first point of write number j: write 0 holds point 0 alone,
      write j > 0 starts right after the flush at point (j-1) * FLUSH_INTERVAL. */
  function ChunkStart(j: nat): nat
  {
    if j == 0 then 0 else (j - 1) * FLUSH_INTERVAL + 1
  }

  /** The index just past the last point of write number j, for n points in all. */
  function ChunkEnd(j: nat, n: nat): nat
  {
    if ChunkStart(j + 1) < n then ChunkStart(j + 1) else n
  }

  /** The number of writes for n points: one per index i < n with
      i % FLUSH_INTERVAL == 0, plus one for a non-empty remainder. */
  function ChunkCount(n: nat): nat
  {
    if n == 0 then 0
    else (n - 1) / FLUSH_INTERVAL + 1 + (if (n - 1) % FLUSH_INTERVAL == 0 then 0 else 1)
  }

  /** The number of writes made while exporting points 0 .. i-1: one for each
      index below i that is a multiple of FLUSH_INTERVAL. */
  function WritesBefore(i: nat): nat
  {
    if i == 0 then 0 else WritesBefore(i - 1) + (if (i - 1) % FLUSH_INTERVAL == 0 then 1 else 0)
  }

  /** Counted in closed form, the multiples below i > 0 are 0, F, .., ((i-1)/F)*F. */
  lemma {:induction false} WritesBeforeClosed(i: nat)
    ensures i > 0 ==> WritesBefore(i) == (i - 1) / FLUSH_INTERVAL + 1
  {
    if i > 1 {
      WritesBeforeClosed(i - 1);
      var q, r := (i - 1) / FLUSH_INTERVAL, (i - 1) % FLUSH_INTERVAL;
      var q', r' := (i - 2) / FLUSH_INTERVAL, (i - 2) % FLUSH_INTERVAL;
      assert i - 1 == q * FLUSH_INTERVAL + r;
      assert i - 2 == q' * FLUSH_INTERVAL + r';
      if r == 0 {
        assert q' == q - 1;
      } else {
        assert q' == q;
      }
    }
  }

  /** Point i adds a write exactly when its index is a multiple of FLUSH_INTERVAL,
      and then that write ends right after point i. */
  lemma WritesBeforeStep(i: nat)
    ensures ChunkStart(WritesBefore(i)) <= i
    ensures i % FLUSH_INTERVAL == 0 ==>
      WritesBefore(i + 1) == WritesBefore(i) + 1 && ChunkStart(WritesBefore(i) + 1) == i + 1
    ensures i % FLUSH_INTERVAL != 0 ==> WritesBefore(i + 1) == WritesBefore(i)
  {
    WritesBeforeClosed(i);
    WritesBeforeClosed(i + 1);
    if i > 0 {
      var q, r := (i - 1) / FLUSH_INTERVAL, (i - 1) % FLUSH_INTERVAL;
      assert i - 1 == q * FLUSH_INTERVAL + r;
      assert ChunkStart(WritesBefore(i)) == q * FLUSH_INTERVAL + 1;
      if i % FLUSH_INTERVAL == 0 {
        assert r == FLUSH_INTERVAL - 1;
        assert ChunkStart(WritesBefore(i) + 1) == (q + 1) * FLUSH_INTERVAL + 1;
      }
    }
  }

  /** After the last point, a non-empty remainder makes one more write, and that
      write reaches the end of the text. */
  lemma WritesAtEnd(n: nat)
    ensures ChunkStart(WritesBefore(n)) <= n
    ensures ChunkCount(n) == WritesBefore(n) + (if ChunkStart(WritesBefore(n)) < n then 1 else 0)
    ensures ChunkEnd(WritesBefore(n), n) == n
  {
    WritesBeforeClosed(n);
    if n > 0 {
      var q, r := (n - 1) / FLUSH_INTERVAL, (n - 1) % FLUSH_INTERVAL;
      assert n - 1 == q * FLUSH_INTERVAL + r;
      assert ChunkStart(WritesBefore(n)) == q * FLUSH_INTERVAL + 1;
      assert ChunkStart(WritesBefore(n) + 1) == (q + 1) * FLUSH_INTERVAL + 1;
    }
  }

  // ----- batching: the same text, handed over in pieces -----

  /** The lines ls[lo .. hi-1] one after the other; empty when hi <= lo. */
  function Join(ls: seq<string>, lo: nat, hi: nat): string
    requires hi <= |ls|
    decreases hi - lo
  {
    if hi <= lo then "" else Join(ls, lo, hi - 1) + ls[hi - 1]
  }

  /** No line of ls is empty. */
  ghost predicate NonEmptyLines(ls: seq<string>)
  {
    forall k :: 0 <= k < |ls| ==> ls[k] != []
  }

  /** The export lines of the first n points of s. */
  function LineSeq(s: seq<real>, fmt: real -> string, n: nat): (r: seq<string>)
    requires 3 * n <= |s|
    ensures |r| == n
  {
    if n == 0 then [] else LineSeq(s, fmt, n - 1) + [Line(s, fmt, n - 1)]
  }

  /** Element i of LineSeq is the line of point i. */
  lemma {:induction false} LineSeqAt(s: seq<real>, fmt: real -> string, n: nat, i: nat)
    requires 3 * n <= |s| && i < n
    ensures LineSeq(s, fmt, n)[i] == Line(s, fmt, i)
  {
    if i < n - 1 {
      LineSeqAt(s, fmt, n - 1, i);
    }
  }

  /** Every export line ends in '\n', so none is empty. */
  lemma LineSeqNonEmpty(s: seq<real>, fmt: real -> string, n: nat)
    requires 3 * n <= |s|
    ensures NonEmptyLines(LineSeq(s, fmt, n))
  {
    forall i | 0 <= i < n
      ensures LineSeq(s, fmt, n)[i] != []
    {
      LineSeqAt(s, fmt, n, i);
    }
  }

  /** The lines of a range of points are those lines of LineSeq joined. */
  lemma {:induction false} LinesAsJoin(s: seq<real>, fmt: real -> string, n: nat, lo: nat, hi: nat)
    requires 3 * n <= |s| && hi <= n
    ensures Lines(s, fmt, lo, hi) == Join(LineSeq(s, fmt, n), lo, hi)
    decreases hi - lo
  {
    var ls := LineSeq(s, fmt, n);
    if lo < hi {
      LinesAsJoin(s, fmt, n, lo, hi - 1);
      LineSeqAt(s, fmt, n, hi - 1);
      assert Join(ls, lo, hi) == Join(ls, lo, hi - 1) + ls[hi - 1];
      assert Lines(s, fmt, lo, hi) == Lines(s, fmt, lo, hi - 1) + Line(s, fmt, hi - 1);
    } else {
      assert Join(ls, lo, hi) == "" == Lines(s, fmt, lo, hi);
    }
  }

  /** Lines joined over a range are empty exactly when the range is. */
  lemma {:induction false} JoinEmpty(ls: seq<string>, lo: nat, hi: nat)
    requires hi <= |ls| && NonEmptyLines(ls)
    ensures |Join(ls, lo, hi)| == 0 <==> hi <= lo
  {
    if lo < hi {
      assert ls[hi - 1] != [];
    }
  }

  /** What the exporter has done after lines 0 .. i-1 of ls: the writes made so
      far are the complete batches, `pending` holds the lines since the last write,
      and together they are lines 0 .. i-1. */
  ghost predicate ExportState(ls: seq<string>, i: nat, writes: seq<string>, pending: string)
  {
    && i <= |ls|
    && |writes| == WritesBefore(i)
    && pending == Join(ls, ChunkStart(|writes|), i)
    && Concat(writes) + pending == Join(ls, 0, i)
    && forall j :: 0 <= j < |writes| ==>
         writes[j] != [] && writes[j] == Join(ls, ChunkStart(j), ChunkEnd(j, |ls|))
  }

  /** Exporting line i: it joins the pending text, which is written out when i is
      a multiple of FLUSH_INTERVAL. */
  lemma ExportStep(ls: seq<string>, i: nat, writes: seq<string>, pending: string)
    requires ExportState(ls, i, writes, pending) && i < |ls| && NonEmptyLines(ls)
    ensures i % FLUSH_INTERVAL == 0 ==> ExportState(ls, i + 1, writes + [pending + ls[i]], "")
    ensures i % FLUSH_INTERVAL != 0 ==> ExportState(ls, i + 1, writes, pending + ls[i])
  {
    WritesBeforeStep(i);
    var str := pending + ls[i];
    assert str == Join(ls, ChunkStart(|writes|), i + 1);
    assert Concat(writes) + str == Join(ls, 0, i + 1);
    if i % FLUSH_INTERVAL == 0 {
      FlushStep(ls, i, writes, str);
    }
  }

  /** Writing out the pending text once it ends at a batch boundary. */
  lemma FlushStep(ls: seq<string>, i: nat, writes: seq<string>, str: string)
    requires i < |ls| && i % FLUSH_INTERVAL == 0 && NonEmptyLines(ls)
    requires |writes| == WritesBefore(i)
    requires str == Join(ls, ChunkStart(|writes|), i + 1)
    requires Concat(writes) + str == Join(ls, 0, i + 1)
    requires forall j :: 0 <= j < |writes| ==>
      writes[j] != [] && writes[j] == Join(ls, ChunkStart(j), ChunkEnd(j, |ls|))
    ensures ExportState(ls, i + 1, writes + [str], "")
  {
    WritesBeforeStep(i);
    ConcatSnoc(writes, str);
    var w := |writes|;
    assert ChunkEnd(w, |ls|) == i + 1;
    JoinEmpty(ls, ChunkStart(w), i + 1);
    var writes' := writes + [str];
    assert forall j :: 0 <= j < w ==> writes'[j] == writes[j];
  }

  /** After the last line, the pending text, when not empty, is the final write. */
  lemma ExportDone(ls: seq<string>, writes: seq<string>, pending: string)
    requires ExportState(ls, |ls|, writes, pending) && NonEmptyLines(ls)
    ensures var all := if |pending| > 0 then writes + [pending] else writes;
      && Concat(all) == Join(ls, 0, |ls|)
      && |all| == ChunkCount(|ls|)
      && forall j :: 0 <= j < |all| ==>
           all[j] != [] && all[j] == Join(ls, ChunkStart(j), ChunkEnd(j, |ls|))
  {
    var n, w := |ls|, |writes|;
    WritesAtEnd(n);
    JoinEmpty(ls, ChunkStart(w), n);
    if |pending| > 0 {
      assert ChunkStart(w) < n && ChunkCount(n) == w + 1;
      ConcatSnoc(writes, pending);
      var all := writes + [pending];
      assert all[w] == Join(ls, ChunkStart(w), ChunkEnd(w, n));
      assert forall j :: 0 <= j < w ==> all[j] == writes[j];
    } else {
      assert ChunkCount(n) == w;
    }
  }

  /** The batches of the export lines of the first n points of s, read as point
      ranges: after the last point, the writes plus the non-empty pending text are
      the whole export text, in ChunkCount(n) non-empty batches. */
  lemma ExportFinished(s: seq<real>, fmt: real -> string, n: nat, writes: seq<string>, pending: string)
    requires 3 * n <= |s| && ExportState(LineSeq(s, fmt, n), n, writes, pending)
    ensures var all := if |pending| > 0 then writes + [pending] else writes;
      && Concat(all) == Text(s, fmt, n)
      && |all| == ChunkCount(n)
      && forall j :: 0 <= j < |all| ==>
           all[j] != [] && all[j] == Lines(s, fmt, ChunkStart(j), ChunkEnd(j, n))
  {
    var ls := LineSeq(s, fmt, n);
    LineSeqNonEmpty(s, fmt, n);
    ExportDone(ls, writes, pending);
    var all := if |pending| > 0 then writes + [pending] else writes;
    LinesAsJoin(s, fmt, n, 0, n);
    forall j | 0 <= j < |all|
      ensures all[j] == Lines(s, fmt, ChunkStart(j), ChunkEnd(j, n))
    {
      LinesAsJoin(s, fmt, n, ChunkStart(j), ChunkEnd(j, n));
    }
  }

  lemma ConcatSnoc(chunks: seq<string>, c: string)
    ensures Concat(chunks + [c]) == Concat(chunks) + c
  {
    assert (chunks + [c])[..|chunks|] == chunks;
  }

  // ----- reading the format back -----

  /** The lines of t, each without its '\n'; `cur` is the part of the current
      line read so far, and a last line without '\n' is kept. */
  function SplitLines(t: string, cur: string := ""): seq<string>
    decreases |t|
  {
    if t == [] then (if cur == [] then [] else [cur])
    else if t[0] == '\n' then [cur] + SplitLines(t[1..])
    else SplitLines(t[1..], cur + [t[0]])
  }

  /** The comma-separated fields of one line; `cur` is the field read so far. */
  function SplitFields(l: string, cur: string := ""): seq<string>
    decreases |l|
  {
    if l == [] then [cur]
    else if l[0] == ',' then [cur] + SplitFields(l[1..])
    else SplitFields(l[1..], cur + [l[0]])
  }

  /** Every line of t split into its fields. */
  function Parse(t: string): seq<seq<string>>
  {
    var ls := SplitLines(t);
    seq(|ls|, i requires 0 <= i < |ls| => SplitFields(ls[i]))
  }

  /** Splitting text that ends in a line break splits each part separately. */
  lemma {:induction false} SplitLinesAppend(a: string, b: string, cur: string)
    requires a != [] && a[|a| - 1] == '\n'
    ensures SplitLines(a + b, cur) == SplitLines(a, cur) + SplitLines(b)
    decreases |a|
  {
    var ab := a + b;
    assert ab[0] == a[0];
    assert ab[1..] == a[1..] + b;
    if a[0] == '\n' {
      if |a| > 1 {
        SplitLinesAppend(a[1..], b, "");
      } else {
        assert a[1..] + b == b;
      }
    } else {
      SplitLinesAppend(a[1..], b, cur + [a[0]]);
    }
  }

  /** One line of text splits into its body alone. */
  lemma {:induction false} SplitOneLine(body: string, cur: string)
    requires '\n' !in body
    ensures SplitLines(body + "\n", cur) == [cur + body]
    decreases |body|
  {
    var t := body + "\n";
    if body == [] {
      assert t == "\n" && cur + body == cur;
      assert t[1..] == [];
    } else {
      assert t[0] == body[0] && t[1..] == body[1..] + "\n";
      SplitOneLine(body[1..], cur + [body[0]]);
      assert cur + [body[0]] + body[1..] == cur + body;
    }
  }

  /** Export text is empty or ends in a line break. */
  lemma LinesEndInBreak(s: seq<real>, fmt: real -> string, lo: nat, hi: nat)
    requires 3 * hi <= |s|
    ensures var t := Lines(s, fmt, lo, hi); t == [] || t[|t| - 1] == '\n'
  {
  }

  /** With a separator-free rendering, a line body holds no line break. */
  lemma BodyHasNoBreak(s: seq<real>, fmt: real -> string, i: nat)
    requires SeparatorFree(fmt) && 3 * i + 3 <= |s|
    ensures '\n' !in LineBody(s, fmt, i)
  {
    NoSeparators(fmt, s[3 * i]);
    NoSeparators(fmt, s[3 * i + 1]);
    NoSeparators(fmt, s[3 * i + 2]);
  }

  /** The export text of points 0 .. n-1 splits into exactly n lines, line i being
      the body of point i. */
  lemma {:induction false} SplitText(s: seq<real>, fmt: real -> string, n: nat)
    requires SeparatorFree(fmt) && 3 * n <= |s|
    ensures |SplitLines(Text(s, fmt, n))| == n
    ensures forall i :: 0 <= i < n ==> SplitLines(Text(s, fmt, n))[i] == LineBody(s, fmt, i)
  {
    if n > 0 {
      SplitText(s, fmt, n - 1);
      var front := Lines(s, fmt, 0, n - 1);
      var body := LineBody(s, fmt, n - 1);
      var before := SplitLines(Text(s, fmt, n - 1));
      assert SplitLines(Text(s, fmt, n)) == before + [body] by {
        BodyHasNoBreak(s, fmt, n - 1);
        SplitOneLine(body, "");
        assert "" + body == body;
        if front == [] {
          assert Text(s, fmt, n) == body + "\n";
        } else {
          LinesEndInBreak(s, fmt, 0, n - 1);
          assert Text(s, fmt, n) == front + (body + "\n");
          SplitLinesAppend(front, body + "\n", "");
        }
      }
      forall i | 0 <= i < n
        ensures SplitLines(Text(s, fmt, n))[i] == LineBody(s, fmt, i)
      {
        if i < n - 1 {
          assert SplitLines(Text(s, fmt, n))[i] == before[i];
        }
      }
    }
  }

  /** A field without commas is read whole, up to the next comma. */
  lemma {:induction false} SplitFieldsCons(x: string, rest: string, cur: string)
    requires ',' !in x
    ensures SplitFields(x + "," + rest, cur) == [cur + x] + SplitFields(rest)
    decreases |x|
  {
    var t := x + "," + rest;
    if x == [] {
      assert t[0] == ',' && t[1..] == rest && cur + x == cur;
    } else {
      assert t[0] == x[0] && t[1..] == x[1..] + "," + rest;
      SplitFieldsCons(x[1..], rest, cur + [x[0]]);
      assert cur + [x[0]] + x[1..] == cur + x;
    }
  }

  /** A last field without commas is read whole. */
  lemma {:induction false} SplitFieldsLast(z: string, cur: string)
    requires ',' !in z
    ensures SplitFields(z, cur) == [cur + z]
    decreases |z|
  {
    if z == [] {
      assert cur + z == cur;
    } else {
      SplitFieldsLast(z[1..], cur + [z[0]]);
      assert cur + [z[0]] + z[1..] == cur + z;
    }
  }

  /** A line body splits into the three rendered coordinates. */
  lemma SplitBody(s: seq<real>, fmt: real -> string, i: nat)
    requires SeparatorFree(fmt) && 3 * i + 3 <= |s|
    ensures SplitFields(LineBody(s, fmt, i)) == [fmt(s[3 * i]), fmt(s[3 * i + 1]), fmt(s[3 * i + 2])]
  {
    NoSeparators(fmt, s[3 * i]);
    NoSeparators(fmt, s[3 * i + 1]);
    NoSeparators(fmt, s[3 * i + 2]);
    var x, y, z := fmt(s[3 * i]), fmt(s[3 * i + 1]), fmt(s[3 * i + 2]);
    assert LineBody(s, fmt, i) == x + "," + (y + "," + z);
    SplitFieldsCons(x, y + "," + z, "");
    SplitFieldsCons(y, z, "");
    SplitFieldsLast(z, "");
    assert "" + x == x && "" + y == y && "" + z == z;
  }

  /** Export round trip: reading the text of n points back gives n records, and
      record i holds the three rendered coordinates of point i. */
  lemma ParseText(s: seq<real>, fmt: real -> string, n: nat)
    requires SeparatorFree(fmt) && 3 * n <= |s|
    ensures |Parse(Text(s, fmt, n))| == n
    ensures forall i :: 0 <= i < n ==>
      Parse(Text(s, fmt, n))[i] == [fmt(s[3 * i]), fmt(s[3 * i + 1]), fmt(s[3 * i + 2])]
  {
    SplitText(s, fmt, n);
    forall i | 0 <= i < n
      ensures Parse(Text(s, fmt, n))[i] == [fmt(s[3 * i]), fmt(s[3 * i + 1]), fmt(s[3 * i + 2])]
    {
      SplitBody(s, fmt, i);
    }
  }

  /** The fields of one record read with `num`. */
  function ReadFields(fields: seq<string>, num: string -> real): (r: seq<real>)
    ensures |r| == |fields|
  {
    seq(|fields|, k requires 0 <= k < |fields| => num(fields[k]))
  }

  /** The numbers of a parsed text, record after record, read with `num`. */
  function Numbers(records: seq<seq<string>>, num: string -> real): seq<real>
  {
    if records == [] then []
    else Numbers(records[..|records| - 1], num) + ReadFields(records[|records| - 1], num)
  }

  /** One record of three renderings, each recovered by `num`, reads back to
      its three floats. */
  lemma ReadRecord(fields: seq<string>, a: real, b: real, c: real, fmt: real -> string, num: string -> real)
    requires fields == [fmt(a), fmt(b), fmt(c)]
    requires num(fmt(a)) == a && num(fmt(b)) == b && num(fmt(c)) == c
    ensures ReadFields(fields, num) == [a, b, c]
  {
  }

  /** Records holding the rendered coordinates of n points, read with a reader
      that recovers each of those coordinates from its rendering, give back
      those 3n floats. */
  lemma {:induction false} NumbersOfRecords(p: seq<seq<string>>, s: seq<real>, fmt: real -> string, num: string -> real, n: nat)
    requires 3 * n <= |s| && |p| == n
    requires forall k :: 0 <= k < 3 * n ==> num(fmt(s[k])) == s[k]
    requires forall i :: 0 <= i < n ==> p[i] == [fmt(s[3 * i]), fmt(s[3 * i + 1]), fmt(s[3 * i + 2])]
    ensures Numbers(p, num) == s[..3 * n]
  {
    if n > 0 {
      var q := p[..n - 1];
      assert forall i :: 0 <= i < n - 1 ==> q[i] == p[i];
      NumbersOfRecords(q, s, fmt, num, n - 1);
      var a, b, c := s[3 * (n - 1)], s[3 * (n - 1) + 1], s[3 * (n - 1) + 2];
      ReadRecord(p[n - 1], a, b, c, fmt, num);
      assert p != [] && p[..|p| - 1] == q;
      assert Numbers(p, num) == Numbers(q, num) + ReadFields(p[n - 1], num);
      assert s[..3 * n] == s[..3 * (n - 1)] + [a, b, c];
    }
  }

  /** With a float reader that recovers every exported coordinate from its
      rendering, reading the export text of n points back yields exactly the 3n
      floats that were exported. */
  lemma ReadBack(s: seq<real>, fmt: real -> string, num: string -> real, n: nat)
    requires SeparatorFree(fmt) && 3 * n <= |s|
    requires forall k :: 0 <= k < 3 * n ==> num(fmt(s[k])) == s[k]
    ensures Numbers(Parse(Text(s, fmt, n)), num) == s[..3 * n]
  {
    ParseText(s, fmt, n);
    NumbersOfRecords(Parse(Text(s, fmt, n)), s, fmt, num, n);
  }
}
