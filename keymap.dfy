/**
 * Key maps and the key-layout parser of multi_ir.c: `keymap_init` and
 * `create_keymap_from_file`.
 *
 * A key map is a dense array of KEYCODE_CNT slots indexed by keycode, each
 * holding a keycode and a key name. A layout file is a sequence of lines; a
 * line `key <keycode> <name>` overwrites slot <keycode>, every other line is
 * skipped.
 */
module KeyMap {
  import opened Header
  import opened CStrings

  /** One slot of a key map (`struct keymap_t`). */
  datatype Entry = Entry(keycode: int, name: string)

  const RESERVE_CODE := 0
  const RESERVE_NAME := "!RESERVE"

  /** The slot `keymap_init` writes everywhere. */
  const RESERVED := Entry(RESERVE_CODE, RESERVE_NAME)

  /** The map `keymap_init` produces: every slot reserved. */
  function ReservedMap(): seq<Entry> {
    seq(KEYCODE_CNT, _ => RESERVED)
  }

  /** A map zero-filled by `memset`, as the customer map is before parsing. */
  function ZeroMap(): seq<Entry> {
    seq(KEYCODE_CNT, _ => Entry(0, ""))
  }

  /** Every slot is either unset (keycode 0) or holds its own index as keycode. */
  ghost predicate Dense(m: seq<Entry>) {
    forall i :: 0 <= i < |m| ==> m[i].keycode == i || m[i].keycode == RESERVE_CODE
  }

  /** Every name fits its MAX_NAME_LEN buffer together with the terminator. */
  ghost predicate NamesFit(m: seq<Entry>) {
    forall i :: 0 <= i < |m| ==> |m[i].name| < MAX_NAME_LEN
  }

  /** Both initial maps are dense and their names fit. */
  lemma InitialMapsWellFormed()
    ensures |ReservedMap()| == |ZeroMap()| == KEYCODE_CNT
    ensures Dense(ReservedMap()) && NamesFit(ReservedMap())
    ensures Dense(ZeroMap()) && NamesFit(ZeroMap())
  {
  }

  /** `keymap_init`: reserve every slot of `keys` in place. */
  method KeymapInit(keys: array<Entry>)
    requires keys.Length == KEYCODE_CNT
    modifies keys
    ensures keys[..] == ReservedMap()
  {
    for i := 0 to keys.Length
      invariant forall k :: 0 <= k < i ==> keys[k] == RESERVED
    {
      keys[i] := RESERVED;
    }
  }

  // ---------------------------------------------------------------------
  // One line of a layout file

  /** The number of spaces (only ' ') the line starts with. */
  function LeadingSpaces(line: string): (n: nat)
    ensures n <= |line| && (n == |line| || line[n] != ' ')
    ensures forall i :: 0 <= i < n ==> line[i] == ' '
  {
    if line != [] && line[0] == ' ' then 1 + LeadingSpaces(line[1..]) else 0
  }

  /** After its leading spaces, the line starts with '#'. */
  predicate IsComment(line: string) {
    var n := LeadingSpaces(line);
    n < |line| && line[n] == '#'
  }

  /**
   * `sscanf(line, "%s %d %s", label, &keycode, name) == 3`, as this model
   * reads it: the line has at least three whitespace tokens and the second
   * is a whole signed decimal number. Tokens after the third are ignored.
   */
  function Scan(line: string): (r: Option<(string, int, string)>)
    ensures r.Some? ==> IsToken(r.value.0) && IsToken(r.value.2)
  {
    var ts := Tokens(line);
    if |ts| >= 3 && IsDecimal(ts[1]) then Some((ts[0], DecimalValue(ts[1]), ts[2])) else None
  }

  /** The keycode lies in [KEYCODE_MIN, KEYCODE_MAX]. */
  predicate InRange(keycode: int) {
    KEYCODE_MIN <= keycode <= KEYCODE_MAX
  }

  /**
   * The slot write a line asks for: Some((keycode, name)) for a key
   * directive that is applied, None for a line the parser skips. A name too
   * long for its buffer rejects the line (the C code copies it regardless;
   * see DirectiveAsWritten).
   */
  function Directive(line: string): (d: Option<(int, string)>)
    ensures d.Some? ==> InRange(d.value.0) && IsToken(d.value.1) && |d.value.1| < MAX_NAME_LEN
  {
    if IsComment(line) then None
    else match Scan(line)
      case None => None
      case Some((tag, keycode, name)) =>
        if tag != "key" || keycode < KEYCODE_MIN || keycode > KEYCODE_MAX then None
        else if |name| >= MAX_NAME_LEN then None
        else Some((keycode, name))
  }

  /** The map after one line has been parsed into it. */
  function ApplyLine(m: seq<Entry>, line: string): (m': seq<Entry>)
    requires |m| == KEYCODE_CNT
    ensures |m'| == KEYCODE_CNT
  {
    match Directive(line)
    case None => m
    case Some(d) => m[d.0 := Entry(d.0, d.1)]
  }

  /** The map after the lines have been parsed into it, first to last. */
  function ApplyLines(m: seq<Entry>, lines: seq<string>): (m': seq<Entry>)
    requires |m| == KEYCODE_CNT
    ensures |m'| == KEYCODE_CNT
  {
    if lines == [] then m
    else ApplyLine(ApplyLines(m, lines[..|lines| - 1]), lines[|lines| - 1])
  }

  /** Parsing one more line of a file. */
  lemma ApplyLinesStep(m: seq<Entry>, lines: seq<string>, n: nat)
    requires |m| == KEYCODE_CNT && n < |lines|
    ensures ApplyLines(m, lines[..n + 1]) == ApplyLine(ApplyLines(m, lines[..n]), lines[n])
  {
    assert lines[..n + 1][..n] == lines[..n];
  }

  // ---------------------------------------------------------------------
  // The parser

  /**
   * A layout file as `create_keymap_from_file` sees it: either it cannot be
   * opened, or `fgets` delivers `lines` and then stops, at the end of the
   * file (`fault` false) or on a read error (`fault` true).
   */
  datatype LayoutFile = Unopenable | Readable(lines: seq<string>, fault: bool)

  /**
   * `create_keymap_from_file`: parse `file` into `keys` in place. Returns -1
   * when the file cannot be opened (keys untouched) or reading stopped on an
   * error (the lines read before the error are applied), 0 otherwise.
   */
  method CreateKeymapFromFile(file: LayoutFile, keys: array<Entry>) returns (ret: int)
    requires keys.Length == KEYCODE_CNT
    modifies keys
    ensures file.Unopenable? ==> ret == -1 && keys[..] == old(keys[..])
    ensures file.Readable? ==> ret == (if file.fault then -1 else 0)
    ensures file.Readable? ==> keys[..] == ApplyLines(old(keys[..]), file.lines)
    ensures file.Readable? && file.lines == [] ==> keys[..] == old(keys[..])
  {
    if file.Unopenable? {
      return -1;
    }
    var lines := file.lines;
    var n := 0;
    while n < |lines|
      invariant n <= |lines|
      invariant keys[..] == ApplyLines(old(keys[..]), lines[..n])
    {
      var line := lines[n];
      ghost var before := keys[..];
      ApplyLinesStep(old(keys[..]), lines, n);
      n := n + 1;
      var p := 0;
      while p < |line| && line[p] == ' '
        invariant p <= |line|
        invariant forall q :: 0 <= q < p ==> line[q] == ' '
      {
        p := p + 1;
      }
      assert p == LeadingSpaces(line);
      if p < |line| && line[p] == '#' {
        SkippedLineLeavesMap(before, line);
        continue;
      }
      var scanned := Scan(line);
      if scanned.None? {
        SkippedLineLeavesMap(before, line);
        continue;
      }
      var (tag, keycode, name) := scanned.value;
      if tag != "key" || keycode < KEYCODE_MIN || keycode > KEYCODE_MAX {
        SkippedLineLeavesMap(before, line);
        continue;
      }
      if |name| >= MAX_NAME_LEN {
        SkippedLineLeavesMap(before, line);
        continue;
      }
      assert Directive(line) == Some((keycode, name));
      keys[keycode] := Entry(keycode, name);
    }
    assert lines[..n] == lines;
    ret := if file.fault then -1 else 0;
  }

  // ---------------------------------------------------------------------
  // Properties of the parser

  /** The text of a key directive: `key <keycode> <name>`. */
  function KeyLine(keycode: nat, name: string): string {
    "key" + " " + NatToDigits(keycode) + " " + name
  }

  /** A key directive line scans as its label, keycode and name. */
  lemma ScanKeyLine(keycode: nat, name: string)
    requires IsToken(name)
    ensures !IsComment(KeyLine(keycode, name))
    ensures Scan(KeyLine(keycode, name)) == Some(("key", keycode, name))
  {
    NatToDigitsRoundTrip(keycode);
    var digits := NatToDigits(keycode);
    assert IsToken(digits) by {
      forall i | 0 <= i < |digits| ensures !IsSpace(digits[i]) {
        assert IsDigit(digits[i]);
      }
    }
    TokensOfTriple("key", digits, name);
  }

  /**
   * A line `key k name` with k in range and a name that fits sets slot k to
   * (k, name) and leaves every other slot as it was.
   */
  lemma KeyLineSetsSlot(m: seq<Entry>, keycode: nat, name: string)
    requires |m| == KEYCODE_CNT
    requires InRange(keycode) && IsToken(name) && |name| < MAX_NAME_LEN
    ensures ApplyLine(m, KeyLine(keycode, name)) == m[keycode := Entry(keycode, name)]
  {
    ScanKeyLine(keycode, name);
  }

  /**
   * The lines the parser skips leave the map exactly as it was: a comment,
   * a line with fewer than three fields, a label other than "key", a
   * keycode out of range, or a name too long for its buffer.
   */
  lemma SkippedLineLeavesMap(m: seq<Entry>, line: string)
    requires |m| == KEYCODE_CNT
    requires || IsComment(line)
             || Scan(line).None?
             || Scan(line).value.0 != "key"
             || !InRange(Scan(line).value.1)
             || |Scan(line).value.2| >= MAX_NAME_LEN
    ensures ApplyLine(m, line) == m
  {
  }

  /** A line of any number of spaces, then '#', is a comment. */
  lemma {:induction false} SpacesThenHashIsComment(spaces: nat, rest: string)
    ensures IsComment(seq(spaces, _ => ' ') + "#" + rest)
    decreases spaces
  {
    var line := seq(spaces, _ => ' ') + "#" + rest;
    if spaces > 0 {
      assert line[1..] == seq(spaces - 1, _ => ' ') + "#" + rest;
      SpacesThenHashIsComment(spaces - 1, rest);
    } else {
      assert line == "#" + rest;
    }
  }

  /** Parsing `a` then `b` is parsing `a + b`. */
  lemma {:induction false} ApplyLinesAppend(m: seq<Entry>, a: seq<string>, b: seq<string>)
    requires |m| == KEYCODE_CNT
    ensures ApplyLines(m, a + b) == ApplyLines(ApplyLines(m, a), b)
    decreases |b|
  {
    if b == [] {
      assert a + b == a;
    } else {
      var b' := b[..|b| - 1];
      assert (a + b)[..|a + b| - 1] == a + b';
      assert (a + b)[|a + b| - 1] == b[|b| - 1];
      ApplyLinesAppend(m, a, b');
    }
  }

  /** Line `i` is a directive for slot `keycode`. */
  predicate Targets(lines: seq<string>, i: nat, keycode: int)
    requires i < |lines|
  {
    Directive(lines[i]).Some? && Directive(lines[i]).value.0 == keycode
  }

  /** A directive line sets its slot to its keycode and name. */
  lemma DirectiveSetsSlot(m: seq<Entry>, line: string)
    requires |m| == KEYCODE_CNT && Directive(line).Some?
    ensures var (k, name) := Directive(line).value; ApplyLine(m, line)[k] == Entry(k, name)
  {
  }

  /** A line that does not target slot `k` leaves slot `k` as it was. */
  lemma OtherLineKeepsSlot(m: seq<Entry>, line: string, k: nat)
    requires |m| == KEYCODE_CNT && k < KEYCODE_CNT
    requires Directive(line).None? || Directive(line).value.0 != k
    ensures ApplyLine(m, line)[k] == m[k]
  {
  }

  /** A slot that no line targets keeps its value through the whole parse. */
  lemma {:induction false} UntargetedSlotUnchanged(m: seq<Entry>, lines: seq<string>, k: nat)
    requires |m| == KEYCODE_CNT && k < KEYCODE_CNT
    requires forall i :: 0 <= i < |lines| ==> !Targets(lines, i, k)
    ensures ApplyLines(m, lines)[k] == m[k]
    decreases |lines|
  {
    if lines != [] {
      var last := |lines| - 1;
      var init := lines[..last];
      assert forall j :: 0 <= j < last ==> init[j] == lines[j] && (Targets(init, j, k) <==> Targets(lines, j, k));
      assert !Targets(lines, last, k);
      UntargetedSlotUnchanged(m, init, k);
      OtherLineKeepsSlot(ApplyLines(m, init), lines[last], k);
    }
  }

  /**
   * Last write wins: when line `i` is the last line that targets slot `k`,
   * the parsed map holds (k, name) from line `i` in slot `k`.
   */
  lemma {:induction false} LastWriteWins(m: seq<Entry>, lines: seq<string>, k: nat, i: nat)
    requires |m| == KEYCODE_CNT && k < KEYCODE_CNT
    requires i < |lines| && Targets(lines, i, k)
    requires forall j :: i < j < |lines| ==> !Targets(lines, j, k)
    ensures ApplyLines(m, lines)[k] == Entry(k, Directive(lines[i]).value.1)
    decreases |lines|
  {
    var last := |lines| - 1;
    var init := lines[..last];
    var prev := ApplyLines(m, init);
    assert ApplyLines(m, lines) == ApplyLine(prev, lines[last]);
    if i < last {
      assert forall j :: 0 <= j < last ==> init[j] == lines[j] && (Targets(init, j, k) <==> Targets(lines, j, k));
      assert !Targets(lines, last, k);
      LastWriteWins(m, init, k, i);
      OtherLineKeepsSlot(prev, lines[last], k);
    } else {
      DirectiveSetsSlot(prev, lines[last]);
    }
  }

  /** Parsing keeps a map dense and its names within their buffers. */
  lemma {:induction false} ApplyLinesWellFormed(m: seq<Entry>, lines: seq<string>)
    requires |m| == KEYCODE_CNT && Dense(m) && NamesFit(m)
    ensures Dense(ApplyLines(m, lines)) && NamesFit(ApplyLines(m, lines))
    decreases |lines|
  {
    if lines != [] {
      ApplyLinesWellFormed(m, lines[..|lines| - 1]);
    }
  }

  /**
   * Every slot that does not hold its own index as keycode has an empty
   * name: the zero-filled customer map before and after parsing.
   */
  ghost predicate UnsetBlank(m: seq<Entry>) {
    forall i :: 0 <= i < |m| && m[i].keycode != i ==> m[i].name == ""
  }

  /** Parsing into a map whose unset slots are blank keeps them blank. */
  lemma {:induction false} ApplyLinesKeepsUnsetBlank(m: seq<Entry>, lines: seq<string>)
    requires |m| == KEYCODE_CNT && UnsetBlank(m)
    ensures UnsetBlank(ApplyLines(m, lines))
    decreases |lines|
  {
    if lines != [] {
      ApplyLinesKeepsUnsetBlank(m, lines[..|lines| - 1]);
    }
  }

  /**
   * The same lines parsed into two maps leave slot k either equal in both
   * (some line set it) or as it was in each map (no line set it).
   */
  lemma {:induction false} ParsesAgreeOnSetSlots(m1: seq<Entry>, m2: seq<Entry>, lines: seq<string>, k: nat)
    requires |m1| == |m2| == KEYCODE_CNT && k < KEYCODE_CNT
    ensures || ApplyLines(m1, lines)[k] == ApplyLines(m2, lines)[k]
            || (ApplyLines(m1, lines)[k] == m1[k] && ApplyLines(m2, lines)[k] == m2[k])
    decreases |lines|
  {
    if lines != [] {
      var init, line := lines[..|lines| - 1], lines[|lines| - 1];
      if Directive(line).Some? && Directive(line).value.0 == k {
        DirectiveSetsSlot(ApplyLines(m1, init), line);
        DirectiveSetsSlot(ApplyLines(m2, init), line);
      } else {
        ParsesAgreeOnSetSlots(m1, m2, init, k);
        OtherLineKeepsSlot(ApplyLines(m1, init), line, k);
        OtherLineKeepsSlot(ApplyLines(m2, init), line, k);
      }
    }
  }

  /** Every name a parse writes is a non-empty token, so non-empty. */
  lemma {:induction false} ParsedNamesNonEmpty(lines: seq<string>)
    ensures forall i :: 0 <= i < KEYCODE_CNT ==> ApplyLines(ReservedMap(), lines)[i].name != ""
    decreases |lines|
  {
    if lines != [] {
      ParsedNamesNonEmpty(lines[..|lines| - 1]);
    }
  }

  // ---------------------------------------------------------------------
  // The parser as written: no length check on the name

  /** `Directive` without the name-length check, as multi_ir.c:131-136 is written. */
  function DirectiveAsWritten(line: string): (d: Option<(int, string)>)
    ensures d.Some? ==> InRange(d.value.0) && IsToken(d.value.1)
    ensures Directive(line).Some? ==> d == Directive(line)
  {
    if IsComment(line) then None
    else match Scan(line)
      case None => None
      case Some((tag, keycode, name)) =>
        if tag != "key" || keycode < KEYCODE_MIN || keycode > KEYCODE_MAX then None
        else Some((keycode, name))
  }

  /**
   * The as-written parser accepts a line whose name does not fit the
   * MAX_NAME_LEN buffer (its `strcpy` overflows the slot), while the
   * corrected parser skips it and so keeps NamesFit.
   */
  lemma OverlongNameOverflows()
    ensures var line := KeyLine(KEYCODE_MIN, seq(MAX_NAME_LEN, _ => 'A'));
            && DirectiveAsWritten(line).Some?
            && |DirectiveAsWritten(line).value.1| >= MAX_NAME_LEN
            && Directive(line).None?
  {
    var name := seq(MAX_NAME_LEN, _ => 'A');
    assert IsToken(name);
    ScanKeyLine(KEYCODE_MIN, name);
  }
}
