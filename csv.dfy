/**
 * The quote-aware CSV row reader of the import service (`readCsvString`).
 *
 * Each call reads one row from the front of a buffer and hands back the row
 * together with the unconsumed rest of the buffer. The reader is a
 * character-by-character state machine with two flags: `esc` (inside a
 * quoted section) and `escesc` (a quote has just closed a quoted section, so
 * a second quote right after it is a literal quote). Separator, quote and
 * line break are parameters; a character matches one of them exactly when
 * the parameter is that single character.
 */
module Csv {

  /** `$c == $token` for the one-character string $c. */
  predicate Is(c: char, token: string) {
    token == [c]
  }

  /**
   * The reader's state: the fields written so far by column index, the order
   * in which those indices were first written (a PHP array remembers it), the
   * current column, and the two quote flags.
   */
  datatype Scanner = Scanner(fields: map<nat, string>, keys: seq<nat>, num: nat, esc: bool, escesc: bool)

  const Start := Scanner(map[], [], 0, false, false)

  /** `$o[$num] .= $s`: appends to the current field, creating it if it does not exist yet. */
  function Put(st: Scanner, s: string): Scanner {
    if st.num in st.fields then st.(fields := st.fields[st.num := st.fields[st.num] + s])
    else st.(fields := st.fields[st.num := s], keys := st.keys + [st.num])
  }

  /**
   * The effect of one character, for every case except a line break read
   * outside quotes (which ends the row instead).
   */
  function Step(st: Scanner, c: char, sep: string, enc: string, lb: string): Scanner {
    if Is(c, lb) then
      if st.esc then Put(st, [c]) else st
    else if Is(c, sep) then
      if st.esc then Put(st, [c]) else st.(num := st.num + 1, esc := false, escesc := false)
    else if Is(c, enc) then
      var st' := if st.escesc then Put(st, enc).(escesc := false) else st;
      if st'.esc then st'.(esc := false, escesc := true) else st'.(esc := true, escesc := false)
    else
      // A quote that closed a section and is followed by an ordinary character is kept literally.
      var st' := if st.escesc then Put(st, enc).(escesc := false) else st;
      Put(st', [c])
  }

  /** Where a scan stopped: the final state and the unconsumed rest of the input. */
  datatype ScanEnd = ScanEnd(st: Scanner, rest: string)

  /**
   * Runs the state machine over s until a line break outside quotes (which is
   * consumed) or the end of s. The rest is always a proper suffix of a
   * non-empty input.
   */
  function Scan(s: string, st: Scanner, sep: string, enc: string, lb: string): (e: ScanEnd)
    ensures |e.rest| <= |s| && e.rest == s[|s| - |e.rest|..]
    ensures s != [] ==> |e.rest| < |s|
    decreases |s|
  {
    if s == [] then ScanEnd(st, [])
    else if Is(s[0], lb) && !st.esc then ScanEnd(st, s[1..])
    else Scan(s[1..], Step(st, s[0], sep, enc, lb), sep, enc, lb)
  }

  /** `end(array_keys($o))`: the index written last, 0 (PHP `false`) when nothing was written. */
  function LastKey(keys: seq<nat>): nat {
    if keys == [] then 0 else keys[|keys| - 1]
  }

  /** What the padding loop makes of the fields: every index below upTo that was never written becomes "". */
  function Pad(fields: map<nat, string>, upTo: nat): map<nat, string> {
    fields + map i: nat | i < upTo && i !in fields :: ""
  }

  /** One row read from a buffer, and the rest of the buffer. */
  datatype Read = Read(row: map<nat, string>, rest: string)

  /** What `readCsvString` returns and leaves in its by-reference buffer. */
  function ReadRow(buffer: string, sep: string, enc: string, lb: string): (r: Read)
    ensures |r.rest| <= |buffer| && r.rest == buffer[|buffer| - |r.rest|..]
    ensures buffer != [] ==> |r.rest| < |buffer|
  {
    var e := Scan(buffer, Start, sep, enc, lb);
    Read(Pad(e.st.fields, LastKey(e.st.keys)), e.rest)
  }

  /**
   * `readCsvString(&$string, $CSV_SEPARATOR, $CSV_ENCLOSURE, $CSV_LINEBREAK)`:
   * the row, and the new value of the by-reference buffer.
   */
  method ReadCsvString(buffer: string, sep: string, enc: string, lb: string) returns (row: map<nat, string>, rest: string)
    ensures Read(row, rest) == ReadRow(buffer, sep, enc, lb)
  {
    var o: map<nat, string> := map[];
    var keys: seq<nat> := [];
    var esc, escesc := false, false;
    var num: nat := 0;
    var i := 0;
    while i < |buffer|
      invariant 0 <= i <= |buffer|
      invariant Scan(buffer, Start, sep, enc, lb) == Scan(buffer[i..], Scanner(o, keys, num, esc, escesc), sep, enc, lb)
    {
      assert buffer[i..][0] == buffer[i] && buffer[i..][1..] == buffer[i + 1..];
      var s := buffer[i];
      if Is(s, lb) && !esc {
        i := i + 1;
        break;
      }
      o, keys, num, esc, escesc := Consume(o, keys, num, esc, escesc, s, sep, enc, lb);
      i := i + 1;
    }
    rest := buffer[i..];
    row := PadMissing(o, LastKey(keys));
  }

  /** The body of the reading loop for one character c that does not end the row. */
  method Consume(o0: map<nat, string>, keys0: seq<nat>, num0: nat, esc0: bool, escesc0: bool,
                 c: char, sep: string, enc: string, lb: string)
    returns (o: map<nat, string>, keys: seq<nat>, num: nat, esc: bool, escesc: bool)
    requires !(Is(c, lb) && !esc0)
    ensures Scanner(o, keys, num, esc, escesc) == Step(Scanner(o0, keys0, num0, esc0, escesc0), c, sep, enc, lb)
  {
    o, keys, num, esc, escesc := o0, keys0, num0, esc0, escesc0;
    if Is(c, lb) {
      // inside quotes: the line break belongs to the field
      if num !in o {
        o := o[num := ""];
        keys := keys + [num];
        assert "" + [c] == [c];
      }
      o := o[num := o[num] + [c]];
    } else if Is(c, sep) {
      if esc {
        if num !in o {
          o := o[num := ""];
          keys := keys + [num];
          assert "" + [c] == [c];
        }
        o := o[num := o[num] + [c]];
      } else {
        num := num + 1;
        esc := false;
        escesc := false;
      }
    } else if Is(c, enc) {
      if escesc {
        if num !in o {
          o := o[num := ""];
          keys := keys + [num];
          assert "" + enc == enc;
        }
        o := o[num := o[num] + enc];
        escesc := false;
      }
      if esc {
        esc := false;
        escesc := true;
      } else {
        esc := true;
        escesc := false;
      }
    } else {
      if num !in o {
        o := o[num := ""];
        keys := keys + [num];
      }
      if escesc {
        o := o[num := o[num] + enc];
        escesc := false;
      }
      o := o[num := o[num] + [c]];
      assert num0 !in o0 ==> "" + enc + [c] == enc + [c] && "" + [c] == [c];
    }
  }

  /** The padding loop of `readCsvString`: every index below maxKey that was never written becomes "". */
  method PadMissing(written: map<nat, string>, maxKey: nat) returns (o: map<nat, string>)
    ensures o == Pad(written, maxKey)
  {
    o := written;
    var k := 0;
    while k < maxKey
      invariant 0 <= k <= maxKey
      invariant o == Pad(written, k)
    {
      if k !in o {
        o := o[k := ""];
      }
      k := k + 1;
    }
  }
}
