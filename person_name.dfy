/**
 * `parsePersonName`: splits one imported value into first, middle and last
 * name according to the person-name format chosen for the import.
 */
module PersonNames {
  import opened Wrappers
  import opened PhpStrings

  /** The parts of a name; a part that the format did not produce is None (not set). */
  datatype PersonName = PersonName(firstName: Option<string>, middleName: Option<string>, lastName: string)

  /** The two trimmed pieces around one split point. */
  datatype Halves = Halves(before: string, after: string)

  /**
   * `$pos = strpos($value, $c); if ($pos) { ... }`: splits at the first c,
   * but only when it is not at position 0, which PHP reads as false.
   */
  function SplitAt(value: string, c: char): (r: Option<Halves>)
    ensures r.Some? ==> Trimmed(r.value.before) && Trimmed(r.value.after)
  {
    match StrPos(value, c)
    case None => None
    case Some(p) =>
      if p > 0 then Some(Halves(Trim(value[..p]), Trim(value[p + 1..]))) else None
  }

  /** The whole value as last name: unknown format, missing format, or nothing to split. */
  function Whole(value: string): PersonName {
    PersonName(None, None, value)
  }

  /** 'f l': first name before the first space, last name after it. */
  function FirstLast(value: string): PersonName {
    match SplitAt(value, ' ')
    case Some(h) => PersonName(Some(h.before), None, h.after)
    case None => Whole(value)
  }

  /** 'l f' and 'l, f': last name before the first separator c, first name after it. */
  function LastFirst(value: string, c: char): PersonName {
    match SplitAt(value, c)
    case Some(h) => PersonName(Some(h.after), None, h.before)
    case None => Whole(value)
  }

  /** 'f m l': as 'f l', then the last name is split again into middle and last name. */
  function FirstMiddleLast(value: string): PersonName {
    match SplitAt(value, ' ')
    case Some(h) =>
      (match SplitAt(h.after, ' ')
       case Some(h2) => PersonName(Some(h.before), Some(h2.before), h2.after)
       case None => PersonName(Some(h.before), None, h.after))
    case None => Whole(value)
  }

  /** 'l f m': as 'l f', then the first name is split again into first and middle name. */
  function LastFirstMiddle(value: string): PersonName {
    match SplitAt(value, ' ')
    case Some(h) =>
      (match SplitAt(h.after, ' ')
       case Some(h2) => PersonName(Some(h2.before), Some(h2.after), h.before)
       case None => PersonName(Some(h.after), None, h.before))
    case None => Whole(value)
  }

  /** The person-name formats the import understands; any other setting is Unknown. */
  datatype NameFormat = FL | LF | LcF | FML | LFM | Unknown

  /** The `switch ($format)` labels 'f l', 'l f', 'l, f', 'f m l' and 'l f m'; a missing format matches none. */
  function FormatOf(format: Option<string>): (f: NameFormat)
    ensures f == FL <==> format == Some("f l")
    ensures f == LF <==> format == Some("l f")
    ensures f == LcF <==> format == Some("l, f")
    ensures f == FML <==> format == Some("f m l")
    ensures f == LFM <==> format == Some("l f m")
  {
    if format == Some("f l") then FL
    else if format == Some("l f") then LF
    else if format == Some("l, f") then LcF
    else if format == Some("f m l") then FML
    else if format == Some("l f m") then LFM
    else Unknown
  }

  /** The name parts of value under a known format. */
  function ParseAs(value: string, f: NameFormat): (r: PersonName)
    ensures r.middleName.Some? ==> r.firstName.Some?
    ensures r.firstName.None? ==> r == Whole(value)
    ensures r.firstName.Some? ==>
      Trimmed(r.firstName.value) && Trimmed(r.lastName) && (r.middleName.Some? ==> Trimmed(r.middleName.value))
  {
    match f
    case FL => FirstLast(value)
    case LF => LastFirst(value, ' ')
    case LcF => LastFirst(value, ',')
    case FML => FirstMiddleLast(value)
    case LFM => LastFirstMiddle(value)
    case Unknown => Whole(value)
  }

  /** `parsePersonName($value, $format)`. */
  function ParsePersonName(value: string, format: Option<string>): (r: PersonName)
    ensures FormatOf(format) == Unknown ==> r == Whole(value)
  {
    ParseAs(value, FormatOf(format))
  }

  /** 'f m l' without a second separator in the remainder gives exactly what 'f l' gives. */
  lemma FirstMiddleLastFallsBack(value: string)
    requires ParseAs(value, FML).middleName.None?
    ensures ParseAs(value, FML) == ParseAs(value, FL)
  {
    var h := SplitAt(value, ' ');
    if h.Some? {
      assert SplitAt(h.value.after, ' ').None?;
    }
  }

  /** 'l f m' without a second separator in the remainder gives exactly what 'l f' gives. */
  lemma LastFirstMiddleFallsBack(value: string)
    requires ParseAs(value, LFM).middleName.None?
    ensures ParseAs(value, LFM) == ParseAs(value, LF)
  {
    var h := SplitAt(value, ' ');
    if h.Some? {
      assert SplitAt(h.value.after, ' ').None?;
    }
  }

  /** A value that starts with the separator is never split: strpos answers 0, which reads as false. */
  lemma LeadingSpaceIsNotSplit(value: string, f: NameFormat)
    requires value != [] && value[0] == ' '
    requires f in {FL, LF, FML, LFM}
    ensures ParseAs(value, f) == Whole(value)
  {
    assert StrPos(value, ' ') == Some(0);
  }

  /** Splitting a + [c] + b at c, where a is non-empty, trimmed and free of c, gives a and the trimmed b. */
  lemma SplitAfter(a: string, c: char, b: string)
    requires a != [] && Trimmed(a)
    requires forall k :: 0 <= k < |a| ==> a[k] != c
    ensures SplitAt(a + [c] + b, c) == Some(Halves(a, Trim(b)))
  {
    var v := a + [c] + b;
    assert v[|a|] == c;
    assert StrPos(v, c) == Some(|a|);
    assert v[..|a|] == a && v[|a| + 1..] == b;
    TrimOfTrimmed(a);
  }

  /** Splitting a + [c] + b at c, where a is non-empty and free of c, gives a and b back when both are trimmed. */
  lemma SplitJoined(a: string, c: char, b: string)
    requires a != [] && Trimmed(a) && Trimmed(b)
    requires forall k :: 0 <= k < |a| ==> a[k] != c
    ensures SplitAt(a + [c] + b, c) == Some(Halves(a, b))
  {
    SplitAfter(a, c, b);
    TrimOfTrimmed(b);
  }

  /** Writing 'First Last' and reading it with 'f l' gives the parts back. */
  lemma FirstLastRoundTrip(first: string, last: string)
    requires first != [] && Trimmed(first) && Trimmed(last)
    requires forall k :: 0 <= k < |first| ==> first[k] != ' '
    ensures ParseAs(first + " " + last, FL) == PersonName(Some(first), None, last)
  {
    SplitJoined(first, ' ', last);
  }

  /** Writing 'Last First' and reading it with 'l f' gives the parts back. */
  lemma LastFirstRoundTrip(first: string, last: string)
    requires last != [] && Trimmed(first) && Trimmed(last)
    requires forall k :: 0 <= k < |last| ==> last[k] != ' '
    ensures ParseAs(last + " " + first, LF) == PersonName(Some(first), None, last)
  {
    SplitJoined(last, ' ', first);
  }

  /** Writing 'Last, First' and reading it with 'l, f' gives the parts back; the space after the comma is trimmed. */
  lemma LastCommaFirstRoundTrip(first: string, last: string)
    requires last != [] && Trimmed(first) && Trimmed(last)
    requires forall k :: 0 <= k < |last| ==> last[k] != ','
    ensures ParseAs(last + ", " + first, LcF) == PersonName(Some(first), None, last)
  {
    assert last + ", " + first == last + [','] + (" " + first);
    SplitAfter(last, ',', " " + first);
    TrimAfterSpace(' ', first);
    TrimOfTrimmed(first);
  }

  /** Two non-empty space-free trimmed words joined by a space around a trimmed non-empty tail form a trimmed string. */
  lemma JoinedTrimmed(a: string, b: string)
    requires a != [] && b != [] && Trimmed(a) && Trimmed(b)
    ensures Trimmed(a + " " + b)
  {
    var v := a + " " + b;
    assert v[0] == a[0] && v[|v| - 1] == b[|b| - 1];
  }

  /** "a b c" splits at its first space into a and "b c", and "b c" splits into b and c. */
  lemma SplitThree(a: string, b: string, c: string)
    requires a != [] && b != [] && c != []
    requires Trimmed(a) && Trimmed(b) && Trimmed(c)
    requires forall k :: 0 <= k < |a| ==> a[k] != ' '
    requires forall k :: 0 <= k < |b| ==> b[k] != ' '
    ensures SplitAt(a + " " + b + " " + c, ' ') == Some(Halves(a, b + " " + c))
    ensures SplitAt(b + " " + c, ' ') == Some(Halves(b, c))
  {
    var rest := b + " " + c;
    JoinedTrimmed(b, c);
    assert a + " " + b + " " + c == a + [' '] + rest;
    SplitJoined(a, ' ', rest);
    SplitJoined(b, ' ', c);
  }

  /** Writing 'First Middle Last' and reading it with 'f m l' gives the three parts back. */
  lemma FirstMiddleLastRoundTrip(first: string, middle: string, last: string)
    requires first != [] && middle != [] && last != []
    requires Trimmed(first) && Trimmed(middle) && Trimmed(last)
    requires forall k :: 0 <= k < |first| ==> first[k] != ' '
    requires forall k :: 0 <= k < |middle| ==> middle[k] != ' '
    ensures ParseAs(first + " " + middle + " " + last, FML) == PersonName(Some(first), Some(middle), last)
  {
    SplitThree(first, middle, last);
  }

  /** Writing 'Last First Middle' and reading it with 'l f m' gives the three parts back. */
  lemma LastFirstMiddleRoundTrip(first: string, middle: string, last: string)
    requires first != [] && middle != [] && last != []
    requires Trimmed(first) && Trimmed(middle) && Trimmed(last)
    requires forall k :: 0 <= k < |last| ==> last[k] != ' '
    requires forall k :: 0 <= k < |first| ==> first[k] != ' '
    ensures ParseAs(last + " " + first + " " + middle, LFM) == PersonName(Some(first), Some(middle), last)
  {
    SplitThree(last, first, middle);
  }
}
