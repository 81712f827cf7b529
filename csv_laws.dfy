/**
 * What the row reader of module Csv guarantees: where a row ends, the shape
 * of the row it returns, how quoting behaves, and that a row written with
 * every field quoted reads back as those fields.
 */
module CsvLaws {
  import opened Csv

  // ---------------------------------------------------------------------------
  // Where a row ends
  // ---------------------------------------------------------------------------

  /** The state after feeding every character of s to Step, ignoring line breaks' power to end the row. */
  function Fold(s: string, st: Scanner, sep: string, enc: string, lb: string): Scanner
    decreases |s|
  {
    if s == [] then st else Fold(s[1..], Step(st, s[0], sep, enc, lb), sep, enc, lb)
  }

  /** Position k of s holds a line break that is read outside quotes. */
  predicate BreaksAt(s: string, k: nat, st: Scanner, sep: string, enc: string, lb: string)
    requires k < |s|
  {
    Is(s[k], lb) && !Fold(s[..k], st, sep, enc, lb).esc
  }

  lemma FoldShift(s: string, k: nat, st: Scanner, sep: string, enc: string, lb: string)
    requires k < |s|
    ensures Fold(s[..k + 1], st, sep, enc, lb) == Fold(s[1..][..k], Step(st, s[0], sep, enc, lb), sep, enc, lb)
  {
    var p := s[..k + 1];
    assert p[0] == s[0] && p[1..] == s[1..][..k];
  }

  lemma BreaksAtShift(s: string, k: nat, st: Scanner, sep: string, enc: string, lb: string)
    requires k + 1 < |s|
    ensures BreaksAt(s, k + 1, st, sep, enc, lb) == BreaksAt(s[1..], k, Step(st, s[0], sep, enc, lb), sep, enc, lb)
  {
    FoldShift(s, k, st, sep, enc, lb);
  }

  /**
   * A scan that ends with e stopped right after the first line break read
   * outside quotes, with the state reached just before it; when there is no
   * such line break it consumed everything (an unterminated quote, for one).
   */
  predicate StopsAtFirstBreak(s: string, st: Scanner, e: ScanEnd, sep: string, enc: string, lb: string)
    requires |e.rest| <= |s|
  {
    var c := |s| - |e.rest|;
    (forall k :: 0 <= k < c - 1 ==> !BreaksAt(s, k, st, sep, enc, lb)) &&
    ((0 < c && BreaksAt(s, c - 1, st, sep, enc, lb) && e.st == Fold(s[..c - 1], st, sep, enc, lb)) ||
     (e.rest == [] && e.st == Fold(s, st, sep, enc, lb) &&
      forall k :: 0 <= k < |s| ==> !BreaksAt(s, k, st, sep, enc, lb)))
  }

  lemma {:induction false} ScanStopsAtFirstBreak(s: string, st: Scanner, sep: string, enc: string, lb: string)
    ensures StopsAtFirstBreak(s, st, Scan(s, st, sep, enc, lb), sep, enc, lb)
    decreases |s|
  {
    if s == [] {
    } else if Is(s[0], lb) && !st.esc {
      assert s[..0] == [];
      assert BreaksAt(s, 0, st, sep, enc, lb);
    } else {
      var st1 := Step(st, s[0], sep, enc, lb);
      ScanStopsAtFirstBreak(s[1..], st1, sep, enc, lb);
      assert Scan(s, st, sep, enc, lb) == Scan(s[1..], st1, sep, enc, lb);
      StopsAfterStep(s, st, Scan(s[1..], st1, sep, enc, lb), sep, enc, lb);
    }
  }

  /** A character that does not end the row, put in front of a scan, keeps the scan stopping at the first break. */
  lemma StopsAfterStep(s: string, st: Scanner, e: ScanEnd, sep: string, enc: string, lb: string)
    requires s != [] && !(Is(s[0], lb) && !st.esc) && |e.rest| <= |s| - 1
    requires StopsAtFirstBreak(s[1..], Step(st, s[0], sep, enc, lb), e, sep, enc, lb)
    ensures StopsAtFirstBreak(s, st, e, sep, enc, lb)
  {
    var st1 := Step(st, s[0], sep, enc, lb);
    var c1 := |s[1..]| - |e.rest|;
    assert !BreaksAt(s, 0, st, sep, enc, lb) by {
      assert s[..0] == [];
    }
    if 0 < c1 && BreaksAt(s[1..], c1 - 1, st1, sep, enc, lb) && e.st == Fold(s[1..][..c1 - 1], st1, sep, enc, lb) {
      NoBreakShift(s, c1 - 1, st, sep, enc, lb);
      BreakShift(s, c1 - 1, st, sep, enc, lb);
    } else {
      NoBreakShift(s, |s| - 1, st, sep, enc, lb);
    }
  }

  /** A prefix free of unquoted line breaks after the first character stays so with the first character in front. */
  lemma NoBreakShift(s: string, n: nat, st: Scanner, sep: string, enc: string, lb: string)
    requires s != [] && n < |s| && !BreaksAt(s, 0, st, sep, enc, lb)
    requires forall k :: 0 <= k < n ==> !BreaksAt(s[1..], k, Step(st, s[0], sep, enc, lb), sep, enc, lb)
    ensures forall k :: 0 <= k < n + 1 ==> !BreaksAt(s, k, st, sep, enc, lb)
  {
    forall k | 1 <= k < n + 1
      ensures !BreaksAt(s, k, st, sep, enc, lb)
    {
      BreaksAtShift(s, k - 1, st, sep, enc, lb);
    }
  }

  /** An unquoted line break after the first character, and the state before it, seen with the first character in front. */
  lemma BreakShift(s: string, k: nat, st: Scanner, sep: string, enc: string, lb: string)
    requires k + 1 < |s|
    ensures BreaksAt(s, k + 1, st, sep, enc, lb) == BreaksAt(s[1..], k, Step(st, s[0], sep, enc, lb), sep, enc, lb)
    ensures Fold(s[..k + 1], st, sep, enc, lb) == Fold(s[1..][..k], Step(st, s[0], sep, enc, lb), sep, enc, lb)
  {
    BreaksAtShift(s, k, st, sep, enc, lb);
    FoldShift(s, k, st, sep, enc, lb);
  }

  /**
   * `readCsvString` consumes exactly up to and including the first line
   * break outside quotes, or the whole buffer when there is none.
   */
  lemma ReadRowStopsAtFirstBreak(buffer: string, sep: string, enc: string, lb: string)
    ensures var c := |buffer| - |ReadRow(buffer, sep, enc, lb).rest|;
      (forall k :: 0 <= k < c - 1 ==> !BreaksAt(buffer, k, Start, sep, enc, lb)) &&
      ((0 < c && BreaksAt(buffer, c - 1, Start, sep, enc, lb)) ||
       (c == |buffer| && forall k :: 0 <= k < |buffer| ==> !BreaksAt(buffer, k, Start, sep, enc, lb)))
  {
    ScanStopsAtFirstBreak(buffer, Start, sep, enc, lb);
  }

  // ---------------------------------------------------------------------------
  // The shape of a row
  // ---------------------------------------------------------------------------

  /**
   * What the reader's state always satisfies: the written indices are listed
   * once each, in increasing order, none beyond the current column, and no
   * written field is empty.
   */
  predicate Valid(st: Scanner, enc: string) {
    Listed(st) && Recorded(st) && Increasing(st.keys) && Filled(st) && (st.escesc ==> enc != "")
  }

  predicate Listed(st: Scanner) {
    forall i :: 0 <= i < |st.keys| ==> st.keys[i] in st.fields
  }

  predicate Recorded(st: Scanner) {
    forall k :: k in st.fields ==> k in st.keys
  }

  predicate Increasing(keys: seq<nat>) {
    forall i, j :: 0 <= i < j < |keys| ==> keys[i] < keys[j]
  }

  predicate Filled(st: Scanner) {
    forall k :: k in st.fields ==> k <= st.num && st.fields[k] != ""
  }

  lemma PutValid(st: Scanner, s: string, enc: string)
    requires Valid(st, enc) && s != ""
    ensures Valid(Put(st, s), enc)
  {
    if st.num in st.fields {
      PutExistingValid(st, s, enc);
    } else {
      PutNewValid(st, s, enc);
    }
  }

  /** Appending to a field already written keeps the keys and only lengthens that field. */
  lemma PutExistingValid(st: Scanner, s: string, enc: string)
    requires Valid(st, enc) && s != "" && st.num in st.fields
    ensures Valid(Put(st, s), enc)
  {
    var r := Put(st, s);
    assert r.keys == st.keys && r.num == st.num && r.escesc == st.escesc;
    assert r.fields.Keys == st.fields.Keys;
    forall k | k in r.fields
      ensures k <= r.num && r.fields[k] != ""
    {
      if k == st.num {
        assert r.fields[k] == st.fields[k] + s;
      } else {
        assert r.fields[k] == st.fields[k];
      }
    }
  }

  /** Writing a new field at the current column appends the column, the largest index so far, to the keys. */
  lemma PutNewValid(st: Scanner, s: string, enc: string)
    requires Valid(st, enc) && s != "" && st.num !in st.fields
    ensures Valid(Put(st, s), enc)
  {
    var r := Put(st, s);
    assert r.keys == st.keys + [st.num] && r.fields == st.fields[st.num := s];
    assert Listed(r) by {
      forall i | 0 <= i < |r.keys|
        ensures r.keys[i] in r.fields
      {
        if i < |st.keys| {
          assert r.keys[i] == st.keys[i];
        }
      }
    }
    assert Recorded(r) by {
      forall k | k in r.fields
        ensures k in r.keys
      {
        if k != st.num {
          var i :| 0 <= i < |st.keys| && st.keys[i] == k;
          assert r.keys[i] == k;
        } else {
          assert r.keys[|st.keys|] == k;
        }
      }
    }
    assert Increasing(r.keys) by {
      forall i | 0 <= i < |st.keys|
        ensures st.keys[i] < st.num
      {
        assert st.keys[i] in st.fields;
      }
      forall i, j | 0 <= i < j < |r.keys|
        ensures r.keys[i] < r.keys[j]
      {
        assert r.keys[i] == st.keys[i];
        if j < |st.keys| {
          assert r.keys[j] == st.keys[j];
        }
      }
    }
  }

  lemma StepValid(st: Scanner, c: char, sep: string, enc: string, lb: string)
    requires Valid(st, enc)
    ensures Valid(Step(st, c, sep, enc, lb), enc)
  {
    if Is(c, lb) || Is(c, sep) {
      if st.esc {
        PutValid(st, [c], enc);
      }
    } else {
      var st' := if st.escesc then Put(st, enc).(escesc := false) else st;
      if st.escesc {
        PutValid(st, enc, enc);
      }
      if !Is(c, enc) {
        PutValid(st', [c], enc);
      }
    }
  }

  lemma {:induction false} ScanValid(s: string, st: Scanner, sep: string, enc: string, lb: string)
    requires Valid(st, enc)
    ensures Valid(Scan(s, st, sep, enc, lb).st, enc)
    decreases |s|
  {
    if s != [] && !(Is(s[0], lb) && !st.esc) {
      StepValid(st, s[0], sep, enc, lb);
      ScanValid(s[1..], Step(st, s[0], sep, enc, lb), sep, enc, lb);
    }
  }

  /** The set {0, ..., n - 1}. */
  function Below(n: nat): (r: set<nat>)
    ensures forall i: nat :: i in r <==> i < n
    ensures |r| == n
  {
    if n == 0 then {} else Below(n - 1) + {n - 1}
  }

  /** A map whose keys are exactly 0 .. n - 1 has n entries. */
  lemma CardOfDense(m: map<nat, string>, n: nat)
    requires forall i: nat :: i in m <==> i < n
    ensures |m| == n
  {
    assert m.Keys == Below(n);
  }

  /** The last listed index of a valid state is its largest written index. */
  lemma LastKeyIsMax(st: Scanner, enc: string)
    requires Valid(st, enc) && st.keys != []
    ensures LastKey(st.keys) in st.fields
    ensures forall k :: k in st.fields ==> k <= LastKey(st.keys)
  {
    forall k | k in st.fields
      ensures k <= LastKey(st.keys)
    {
      var i :| 0 <= i < |st.keys| && st.keys[i] == k;
      assert i == |st.keys| - 1 || st.keys[i] < st.keys[|st.keys| - 1];
    }
  }

  /** Padding below the largest written index fills every gap and adds nothing beyond it. */
  lemma PadKeys(fields: map<nat, string>, last: nat)
    requires last in fields && forall k :: k in fields ==> k <= last
    ensures forall i: nat :: i in Pad(fields, last) <==> i <= last
    ensures Pad(fields, last)[last] == fields[last]
  {
  }

  /** Padding a valid state gives the keys 0 .. count - 1 and a non-empty last field. */
  lemma PadShape(st: Scanner, enc: string)
    requires Valid(st, enc)
    ensures var row := Pad(st.fields, LastKey(st.keys));
      (forall i: nat :: i in row <==> i < |row|) && (|row| > 0 ==> row[|row| - 1] != "")
  {
    var row := Pad(st.fields, LastKey(st.keys));
    if st.keys == [] {
      assert st.fields == map[] by {
        assert forall k :: k in st.fields ==> k in st.keys;
      }
      assert row == map[];
    } else {
      var last := LastKey(st.keys);
      LastKeyIsMax(st, enc);
      PadKeys(st.fields, last);
      CardOfDense(row, last + 1);
      assert st.fields[last] != "";
    }
  }

  /**
   * Every row has the keys 0 .. count - 1 and a non-empty last field: the
   * unwritten indices below the last written one are filled with "", and
   * trailing empty fields are not there.
   */
  lemma ReadRowShape(buffer: string, sep: string, enc: string, lb: string)
    ensures var row := ReadRow(buffer, sep, enc, lb).row;
      (forall i: nat :: i in row <==> i < |row|) && (|row| > 0 ==> row[|row| - 1] != "")
  {
    ScanValid(buffer, Start, sep, enc, lb);
    PadShape(Scan(buffer, Start, sep, enc, lb).st, enc);
  }

  /**
   * A row of one field is skipped by the import loop as PHP-empty only when
   * that field is "0": a lone "" is never returned.
   */
  lemma SingleFieldRowIsNotBlank(buffer: string, sep: string, enc: string, lb: string)
    requires |ReadRow(buffer, sep, enc, lb).row| == 1
    ensures 0 in ReadRow(buffer, sep, enc, lb).row && ReadRow(buffer, sep, enc, lb).row[0] != ""
  {
    ReadRowShape(buffer, sep, enc, lb);
  }

  /** A blank line is read as an empty row, which is what ends the import loop. */
  lemma BlankLine(rest: string, sep: string, enc: string, lb: char)
    ensures ReadRow([lb] + rest, sep, enc, [lb]) == Read(map[], rest)
  {
    assert ([lb] + rest)[1..] == rest;
  }

  /** n copies of the character c. */
  function Repeat(c: char, n: nat): (r: string)
    ensures |r| == n && forall k :: 0 <= k < n ==> r[k] == c
  {
    if n == 0 then [] else [c] + Repeat(c, n - 1)
  }

  lemma {:induction false} ScanSeparators(n: nat, rest: string, num: nat, sep: char, enc: string, lb: char)
    requires sep != lb
    ensures Scan(Repeat(sep, n) + [lb] + rest, Scanner(map[], [], num, false, false), [sep], enc, [lb])
         == ScanEnd(Scanner(map[], [], num + n, false, false), rest)
    decreases n
  {
    var s := Repeat(sep, n) + [lb] + rest;
    if n == 0 {
      assert s == [lb] + rest;
    } else {
      assert s[0] == sep && s[1..] == Repeat(sep, n - 1) + [lb] + rest;
      ScanSeparators(n - 1, rest, num + 1, sep, enc, lb);
    }
  }

  /** A line holding only separators is read as an empty row. */
  lemma SeparatorsOnly(n: nat, rest: string, sep: char, enc: string, lb: char)
    requires sep != lb
    ensures ReadRow(Repeat(sep, n) + [lb] + rest, [sep], enc, [lb]) == Read(map[], rest)
  {
    ScanSeparators(n, rest, 0, sep, enc, lb);
  }

  // ---------------------------------------------------------------------------
  // Quoting
  // ---------------------------------------------------------------------------

  /** Appends v to the current field when v is not empty. */
  function Append(st: Scanner, v: string): Scanner {
    if v == [] then st else Put(st, v)
  }

  lemma PutPut(st: Scanner, a: string, b: string)
    ensures Put(Put(st, a), b) == Put(st, a + b)
  {
    if st.num in st.fields {
      assert st.fields[st.num] + a + b == st.fields[st.num] + (a + b);
    }
  }

  /** Inside quotes a separator or a line break is part of the field. */
  lemma SpecialInsideQuotes(c: char, rest: string, st: Scanner, sep: string, enc: string, lb: string)
    requires st.esc && (Is(c, sep) || Is(c, lb))
    ensures Scan([c] + rest, st, sep, enc, lb) == Scan(rest, Put(st, [c]), sep, enc, lb)
  {
    assert ([c] + rest)[0] == c && ([c] + rest)[1..] == rest;
  }

  /** Inside quotes a doubled quote contributes one quote character and stays inside quotes. */
  lemma DoubledQuote(q: char, rest: string, st: Scanner, sep: string, lb: string)
    requires st.esc && !st.escesc && !Is(q, sep) && !Is(q, lb)
    ensures Scan([q, q] + rest, st, sep, [q], lb) == Scan(rest, Put(st, [q]), sep, [q], lb)
  {
    var s := [q, q] + rest;
    assert s[0] == q && s[1..] == [q] + rest;
    assert s[1..][0] == q && s[1..][1..] == rest;
  }

  /** A field value with every quote doubled, as a writer escapes it inside quotes. */
  function Double(v: string, q: char): (r: string)
    ensures |r| >= |v|
  {
    if v == [] then []
    else (if v[0] == q then [q, q] else [v[0]]) + Double(v[1..], q)
  }

  /** Inside quotes, an escaped value is read back as the value itself, whatever separators or line breaks it holds. */
  lemma {:induction false} ScanDoubled(v: string, rest: string, st: Scanner, q: char, sep: string, lb: string)
    requires st.esc && !st.escesc && !Is(q, sep) && !Is(q, lb)
    ensures Scan(Double(v, q) + rest, st, sep, [q], lb) == Scan(rest, Append(st, v), sep, [q], lb)
    decreases |v|
  {
    if v == [] {
      assert Double(v, q) + rest == rest;
    } else {
      DoubledHead(v, rest, st, q, sep, lb);
      ScanDoubled(v[1..], rest, Put(st, [v[0]]), q, sep, lb);
      AppendHead(st, v);
    }
  }

  /** The first character of an escaped value (one quote for a doubled quote) is read into the field. */
  lemma DoubledHead(v: string, rest: string, st: Scanner, q: char, sep: string, lb: string)
    requires v != [] && st.esc && !st.escesc && !Is(q, sep) && !Is(q, lb)
    ensures Scan(Double(v, q) + rest, st, sep, [q], lb) == Scan(Double(v[1..], q) + rest, Put(st, [v[0]]), sep, [q], lb)
  {
    var tail := Double(v[1..], q) + rest;
    if v[0] == q {
      assert Double(v, q) + rest == [q, q] + tail;
      DoubledQuote(q, tail, st, sep, lb);
    } else {
      assert Double(v, q) + rest == [v[0]] + tail;
      assert ([v[0]] + tail)[0] == v[0] && ([v[0]] + tail)[1..] == tail;
      assert Step(st, v[0], sep, [q], lb) == Put(st, [v[0]]);
    }
  }

  /** Appending the rest of a value after its first character appends the whole value. */
  lemma AppendHead(st: Scanner, v: string)
    requires v != []
    ensures Append(Put(st, [v[0]]), v[1..]) == Put(st, v)
  {
    if v[1..] == [] {
      assert v == [v[0]];
    } else {
      PutPut(st, [v[0]], v[1..]);
      assert [v[0]] + v[1..] == v;
    }
  }

  /** A field written in quotes: opening quote, the escaped value, closing quote. */
  function Quoted(v: string, q: char): string {
    [q] + Double(v, q) + [q]
  }

  /** A quoted field is read as its value; the closing quote leaves the reader just after a quoted section. */
  lemma QuotedField(v: string, rest: string, st: Scanner, q: char, sep: string, lb: string)
    requires !st.esc && !st.escesc && !Is(q, sep) && !Is(q, lb)
    ensures Scan(Quoted(v, q) + rest, st, sep, [q], lb) == Scan(rest, Append(st, v).(escesc := true), sep, [q], lb)
  {
    var inner := Double(v, q) + ([q] + rest);
    assert Quoted(v, q) + rest == [q] + inner;
    var st1 := st.(esc := true);
    FirstChar(q, inner, st, sep, [q], lb);
    assert Step(st, q, sep, [q], lb) == st1;
    ScanDoubled(v, [q] + rest, st1, q, sep, lb);
    AppendKeepsFlags(st1, v);
    var st2 := Append(st1, v);
    FirstChar(q, rest, st2, sep, [q], lb);
    assert Step(st2, q, sep, [q], lb) == st2.(esc := false, escesc := true);
    AppendKeepsFlags(st, v);
  }

  /** A first character that does not end the row is stepped over. */
  lemma FirstChar(c: char, rest: string, st: Scanner, sep: string, enc: string, lb: string)
    requires !(Is(c, lb) && !st.esc)
    ensures Scan([c] + rest, st, sep, enc, lb) == Scan(rest, Step(st, c, sep, enc, lb), sep, enc, lb)
  {
    assert ([c] + rest)[0] == c && ([c] + rest)[1..] == rest;
  }

  /** Appending to the field leaves the column and the quote flags as they were. */
  lemma AppendKeepsFlags(st: Scanner, v: string)
    ensures Append(st, v).num == st.num && Append(st, v).esc == st.esc && Append(st, v).escesc == st.escesc
    ensures Append(st.(esc := true), v) == Append(st, v).(esc := true)
  {
  }

  // ---------------------------------------------------------------------------
  // Reading back a quoted row
  // ---------------------------------------------------------------------------

  /** The values joined with the separator, each in quotes. */
  function JoinQuoted(vs: seq<string>, sep: char, q: char): string
    requires |vs| >= 1
  {
    Quoted(vs[0], q) + (if |vs| == 1 then [] else [sep] + JoinQuoted(vs[1..], sep, q))
  }

  /** The non-empty values by position: the fields a reader writes for them. */
  function Written(vs: seq<string>): map<nat, string> {
    map i: nat | i < |vs| && vs[i] != "" :: vs[i]
  }

  /** The positions of the non-empty values, in order. */
  function WrittenKeys(vs: seq<string>): seq<nat> {
    if vs == [] then []
    else WrittenKeys(vs[..|vs| - 1]) + (if vs[|vs| - 1] != "" then [|vs| - 1] else [])
  }

  /** The values without their trailing empty ones. */
  function DropTrailingEmpty(vs: seq<string>): (r: seq<string>)
    ensures |r| <= |vs| && r == vs[..|r|]
    ensures forall k :: |r| <= k < |vs| ==> vs[k] == ""
    ensures r != [] ==> r[|r| - 1] != ""
  {
    if vs == [] then []
    else if vs[|vs| - 1] == "" then DropTrailingEmpty(vs[..|vs| - 1])
    else vs
  }

  /** The row a writer meant by the values: every position up to the last non-empty value. */
  function RowOf(vs: seq<string>): map<nat, string> {
    var t := DropTrailingEmpty(vs);
    map i: nat | i < |t| :: t[i]
  }

  /** The reader's state at the start of field |pre| after reading the values pre. */
  function Acc(pre: seq<string>, esc: bool, escesc: bool): Scanner {
    Scanner(Written(pre), WrittenKeys(pre), |pre|, esc, escesc)
  }

  lemma WrittenSnoc(pre: seq<string>, v: string)
    ensures Written(pre + [v]) == if v == "" then Written(pre) else Written(pre)[|pre| := v]
  {
    var p := pre + [v];
    forall i: nat | i < |pre|
      ensures p[i] == pre[i]
    {
    }
  }

  lemma AppendWritten(pre: seq<string>, v: string, esc: bool, escesc: bool)
    ensures Append(Acc(pre, esc, escesc), v) == Acc(pre + [v], esc, escesc).(num := |pre|)
  {
    var p := pre + [v];
    assert p[..|p| - 1] == pre;
    assert |pre| !in Written(pre);
    WrittenSnoc(pre, v);
  }

  /** A quoted value followed by the line break: the row ends with that value as its last field. */
  lemma LastField(pre: seq<string>, v: string, rest: string, sep: char, q: char, lb: char)
    requires sep != q && sep != lb && q != lb
    ensures Scan(Quoted(v, q) + ([lb] + rest), Acc(pre, false, false), [sep], [q], [lb])
         == ScanEnd(Acc(pre + [v], false, true).(num := |pre|), rest)
  {
    QuotedField(v, [lb] + rest, Acc(pre, false, false), q, [sep], [lb]);
    AppendWritten(pre, v, false, false);
    assert ([lb] + rest)[0] == lb && ([lb] + rest)[1..] == rest;
  }

  /** A quoted value followed by the separator: the reader moves on to the next field. */
  lemma InnerField(pre: seq<string>, v: string, tail: string, sep: char, q: char, lb: char)
    requires sep != q && sep != lb && q != lb
    ensures Scan(Quoted(v, q) + ([sep] + tail), Acc(pre, false, false), [sep], [q], [lb])
         == Scan(tail, Acc(pre + [v], false, false), [sep], [q], [lb])
  {
    QuotedField(v, [sep] + tail, Acc(pre, false, false), q, [sep], [lb]);
    AppendWritten(pre, v, false, false);
    assert ([sep] + tail)[0] == sep && ([sep] + tail)[1..] == tail;
  }

  lemma {:induction false} ScanJoined(pre: seq<string>, vs: seq<string>, rest: string, sep: char, q: char, lb: char)
    requires |vs| >= 1 && sep != q && sep != lb && q != lb
    ensures Scan(JoinQuoted(vs, sep, q) + [lb] + rest, Acc(pre, false, false), [sep], [q], [lb])
         == ScanEnd(Acc(pre + vs, false, true).(num := |pre + vs| - 1), rest)
    decreases |vs|
  {
    var v := vs[0];
    var s := JoinQuoted(vs, sep, q) + [lb] + rest;
    if |vs| == 1 {
      assert s == Quoted(v, q) + ([lb] + rest);
      assert pre + vs == pre + [v];
      LastField(pre, v, rest, sep, q, lb);
    } else {
      var tail := JoinQuoted(vs[1..], sep, q) + [lb] + rest;
      assert s == Quoted(v, q) + ([sep] + tail);
      assert Scan(s, Acc(pre, false, false), [sep], [q], [lb]) == Scan(tail, Acc(pre + [v], false, false), [sep], [q], [lb]) by {
        InnerField(pre, v, tail, sep, q, lb);
      }
      assert pre + [v] + vs[1..] == pre + vs;
      ScanJoined(pre + [v], vs[1..], rest, sep, q, lb);
    }
  }

  lemma {:induction false} LastWrittenKey(vs: seq<string>)
    ensures WrittenKeys(vs) == [] <==> DropTrailingEmpty(vs) == []
    ensures WrittenKeys(vs) != [] ==> LastKey(WrittenKeys(vs)) == |DropTrailingEmpty(vs)| - 1
    decreases |vs|
  {
    if vs != [] {
      LastWrittenKey(vs[..|vs| - 1]);
    }
  }

  lemma PadWritten(vs: seq<string>)
    ensures Pad(Written(vs), LastKey(WrittenKeys(vs))) == RowOf(vs)
  {
    LastWrittenKey(vs);
    var t := DropTrailingEmpty(vs);
    var p := Pad(Written(vs), LastKey(WrittenKeys(vs)));
    if t == [] {
      assert Written(vs) == map[];
    } else {
      assert t[|t| - 1] == vs[|t| - 1];
      assert forall i: nat :: i in p <==> i < |t|;
    }
  }

  /**
   * Writing every field in quotes, with quotes doubled, joined by the
   * separator and ended by a line break, reads back as those fields up to the
   * last non-empty one, and leaves exactly what followed the line break.
   */
  lemma ReadQuotedRow(vs: seq<string>, rest: string, sep: char, q: char, lb: char)
    requires |vs| >= 1 && sep != q && sep != lb && q != lb
    ensures ReadRow(JoinQuoted(vs, sep, q) + [lb] + rest, [sep], [q], [lb]) == Read(RowOf(vs), rest)
  {
    assert Written([]) == map[];
    assert Acc([], false, false) == Start;
    ScanJoined([], vs, rest, sep, q, lb);
    assert [] + vs == vs;
    PadWritten(vs);
  }
}
