/** The part of a line between its surrounding whitespace, and the test that a
    common run is not just lines that an indentation change made look alike. */
module LineIndent {
  import opened LineHashing
  import opened LineTable

  /** Backspace, tab, newline, form feed, carriage return and space. */
  predicate IsSpace(c: Byte) {
    c == 8 || c == 9 || c == 10 || c == 12 || c == 13 || c == 32
  }

  /** The first position from k on that is not whitespace, or the length. */
  function FirstInk(text: seq<Byte>, k: nat): (ii: nat)
    requires k <= |text|
    ensures k <= ii <= |text|
    ensures ii < |text| ==> !IsSpace(text[ii])
    decreases |text| - k
  {
    if k < |text| && IsSpace(text[k]) then FirstInk(text, k + 1) else k
  }

  /** The last position down from k, and not below lo, that is not whitespace. */
  function LastInk(text: seq<Byte>, lo: nat, k: int): (jj: int)
    requires -1 <= k < |text|
    ensures jj <= k && (k >= lo ==> jj >= lo)
    ensures jj > lo ==> !IsSpace(text[jj])
    ensures k < lo ==> jj == k
    decreases k - lo
  {
    if k > lo && IsSpace(text[k]) then LastInk(text, lo, k - 1) else k
  }

  function Indent(text: seq<Byte>): nat {
    FirstInk(text, 0)
  }

  /** The width of the line without its surrounding whitespace. */
  function Width(text: seq<Byte>): (w: nat)
    ensures Indent(text) + w <= |text|
    ensures w > 0 ==> !IsSpace(text[Indent(text)]) && !IsSpace(text[Indent(text) + w - 1])
  {
    LastInk(text, Indent(text), |text| - 1) - Indent(text) + 1
  }

  /** The line without its surrounding whitespace. */
  function Core(text: seq<Byte>): (core: seq<Byte>)
    ensures |core| == Width(text)
  {
    text[Indent(text)..Indent(text) + Width(text)]
  }

  /** The measurements of a line: its leading whitespace and its width without
      surrounding whitespace, 0 meaning not computed. */
  datatype Measures = Measures(indent: nat, nw: nat)

  /** What has been computed is right. */
  ghost predicate Sound(d: Measures, text: seq<Byte>) {
    d.nw == 0 || (d.nw == Width(text) && d.indent == Indent(text))
  }

  ghost predicate Measured(d: Measures, text: seq<Byte>) {
    Sound(d, text) && d.nw == Width(text)
  }

  /** The line's core, read off its measurements. */
  function MeasuredCore(d: Measures, text: seq<Byte>): (core: seq<Byte>)
    requires Sound(d, text)
    ensures Measured(d, text) ==> core == Core(text)
  {
    if d.nw == 0 then [] else text[d.indent..d.indent + d.nw]
  }

  method Measure(d: Measures, text: seq<Byte>) returns (d': Measures)
    requires Sound(d, text)
    ensures Measured(d', text)
  {
    if d.nw != 0 || text == [] {
      return d;
    }
    var n := |text|;
    var ii := 0;
    while ii < n && IsSpace(text[ii])
      invariant 0 <= ii <= n && FirstInk(text, 0) == FirstInk(text, ii)
    {
      ii := ii + 1;
    }
    var jj := n - 1;
    while jj > ii && IsSpace(text[jj])
      invariant -1 <= jj < n && jj >= ii - 1
      invariant LastInk(text, ii, n - 1) == LastInk(text, ii, jj)
    {
      jj := jj - 1;
    }
    d' := Measures(ii, jj - ii + 1);
  }

  ghost predicate AllSound(table: seq<Measures>, lines: seq<Key>) {
    |table| == |lines| && forall k :: 0 <= k < |lines| ==> Sound(table[k], lines[k].text)
  }

  ghost predicate AllMeasured(table: seq<Measures>, lines: seq<Key>, lo: nat, hi: nat) {
    AllSound(table, lines) && hi <= |lines| && forall k :: lo <= k < hi ==> Measured(table[k], lines[k].text)
  }

  /** Measures lines[lo..hi] and counts those wider than one byte. */
  method MeasureRange(table: array<Measures>, lines: seq<Key>, lo: nat, hi: nat) returns (wide: nat)
    requires lo <= hi <= |lines| && AllSound(table[..], lines)
    modifies table
    ensures AllMeasured(table[..], lines, lo, hi)
    ensures forall k :: 0 <= k < |lines| && !(lo <= k < hi) ==> table[k] == old(table[k])
    ensures wide > 0 <==> exists k :: lo <= k < hi && Width(lines[k].text) > 1
  {
    wide := 0;
    var i := lo;
    while i < hi
      invariant lo <= i <= hi
      invariant AllMeasured(table[..], lines, lo, i)
      invariant forall k :: 0 <= k < |lines| && !(lo <= k < i) ==> table[k] == old(table[k])
      invariant wide > 0 <==> exists k :: lo <= k < i && Width(lines[k].text) > 1
    {
      table[i] := Measure(table[i], lines[i].text);
      if table[i].nw > 1 {
        wide := wide + 1;
      }
      i := i + 1;
    }
  }

  /** Some line of the run is wider than one byte and, whitespace aside, is found
      nowhere else in from[s1..e1]. */
  ghost predicate HasOwnLine(lines: seq<Key>, s1: nat, sx: nat, ex: nat, e1: nat)
    requires s1 <= sx <= ex <= e1 <= |lines|
  {
    exists i :: sx <= i < ex && Width(lines[i].text) > 1 && !FoundOutside(lines, i, s1, sx, ex, e1)
  }

  ghost predicate FoundIn(lines: seq<Key>, i: nat, lo: nat, hi: nat)
    requires i < |lines| && hi <= |lines|
  {
    exists j :: lo <= j < hi && Core(lines[j].text) == Core(lines[i].text)
  }

  ghost predicate FoundOutside(lines: seq<Key>, i: nat, s1: nat, sx: nat, ex: nat, e1: nat)
    requires s1 <= sx <= i < ex <= e1 <= |lines|
  {
    FoundIn(lines, i, s1, sx) || FoundIn(lines, i, ex, e1)
  }

  /** The common run from[sx..ex] within from[s1..e1] is a real match rather than
      lines that only look alike after an indentation change. */
  ghost predicate RealMatch(lines: seq<Key>, s1: nat, sx: nat, ex: nat, e1: nat)
    requires s1 <= sx <= ex <= e1 <= |lines|
  {
    (ex - sx) * 7 >= e1 - s1 || HasOwnLine(lines, s1, sx, ex, e1)
  }

  method RepeatsIn(table: array<Measures>, lines: seq<Key>, i: nat, lo: nat, hi: nat) returns (found: bool)
    requires i < |lines| && lo <= hi && AllMeasured(table[..], lines, lo, hi)
    requires Measured(table[i], lines[i].text)
    ensures found <==> FoundIn(lines, i, lo, hi)
  {
    var core := MeasuredCore(table[i], lines[i].text);
    var j := lo;
    while j < hi
      invariant lo <= j <= hi && !FoundIn(lines, i, lo, j)
    {
      assert Measured(table[..][j], lines[j].text);
      if table[j].nw == table[i].nw && MeasuredCore(table[j], lines[j].text) == core {
        return true;
      }
      j := j + 1;
    }
    found := false;
  }

  /** Some line of the run is its own, every line of from[s1..e1] being measured. */
  method FindOwnLine(table: array<Measures>, lines: seq<Key>, s1: nat, sx: nat, ex: nat, e1: nat) returns (own: bool)
    requires s1 <= sx <= ex <= e1 <= |lines| && AllMeasured(table[..], lines, s1, e1)
    ensures own <==> HasOwnLine(lines, s1, sx, ex, e1)
  {
    var i := sx;
    while i < ex
      invariant sx <= i <= ex
      invariant forall k :: sx <= k < i && Width(lines[k].text) > 1 ==> FoundOutside(lines, k, s1, sx, ex, e1)
    {
      assert Measured(table[..][i], lines[i].text);
      if table[i].nw > 1 {
        var before := RepeatsIn(table, lines, i, s1, sx);
        var after := RepeatsIn(table, lines, i, ex, e1);
        if !before && !after {
          return true;
        }
      }
      i := i + 1;
    }
    own := false;
  }

  method LikelyNotIndentArtifact(table: array<Measures>, lines: seq<Key>, s1: nat, sx: nat, ex: nat, e1: nat)
    returns (real_: bool)
    requires s1 <= sx <= ex <= e1 <= |lines| && AllSound(table[..], lines)
    modifies table
    ensures AllSound(table[..], lines)
    ensures real_ <==> RealMatch(lines, s1, sx, ex, e1)
  {
    if (ex - sx) * 7 >= e1 - s1 {
      return true;
    }
    var wide := MeasureRange(table, lines, sx, ex);
    if wide == 0 {
      return false;
    }
    var _ := MeasureRange(table, lines, s1, sx);
    var _ := MeasureRange(table, lines, ex, e1);
    real_ := FindOwnLine(table, lines, s1, sx, ex, e1);
  }
}
