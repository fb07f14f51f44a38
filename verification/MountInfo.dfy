/** What is mounted in the guest, as the kernel's mount table says it.

    The table's format is that of section 3.5 of the Linux kernel's proc.rst: six fields, any number of
    optional fields, a lone hyphen, and three more fields. Paths in it are escaped in octal.
 */
module MountInfo {
  import opened Outcomes
  import GpuTargets

  datatype MountedShare = MountedShare(path: string, share: string)

  /* Splitting text. */

  /** The pieces between the separators; a text without one is one piece. */
  function Split(text: string, separator: char): (pieces: seq<string>)
    ensures |pieces| >= 1
  {
    if text == "" then [""]
    else
      var rest := Split(text[1..], separator);
      if text[0] == separator then [""] + rest else Grown(text[0], rest)
  }

  /** The pieces with one more character at the front of the first. */
  function Grown(c: char, pieces: seq<string>): seq<string>
    requires pieces != []
  {
    [[c] + pieces[0]] + pieces[1..]
  }

  function Join(pieces: seq<string>, separator: char): string
    requires pieces != []
  {
    if |pieces| == 1 then pieces[0] else pieces[0] + [separator] + Join(pieces[1..], separator)
  }

  /** Splits around the first lone hyphen between two spaces. */
  function SplitAtHyphen(line: string): Option<(string, string)> {
    if |line| < 3 then None
    else if line[..3] == " - " then Some(("", line[3..]))
    else
      match SplitAtHyphen(line[1..])
      case None => None
      case Some((before, after)) => Some(([line[0]] + before, after))
  }

  /** The lines of a text, without their terminators; `\r\n` ends a line as `\n` does. */
  function Lines(text: string): seq<string> {
    LinesOf(Split(text, '\n'))
  }

  function LinesOf(pieces: seq<string>): seq<string>
    requires pieces != []
  {
    var last := pieces[|pieces| - 1];
    Terminated(pieces[..|pieces| - 1]) + (if last == "" then [] else [last])
  }

  function Terminated(pieces: seq<string>): seq<string> {
    if pieces == [] then []
    else [WithoutReturn(pieces[0])] + Terminated(pieces[1..])
  }

  function WithoutReturn(line: string): string {
    if line != "" && line[|line| - 1] == '\r' then line[..|line| - 1] else line
  }

  /* Octal escapes. */

  predicate IsOctal(c: char) {
    '0' <= c <= '7'
  }

  function OctalDigit(c: char): nat
    requires IsOctal(c)
  {
    c as int - '0' as int
  }

  /** Three characters read as a byte in octal, as the source's number parser reads them: a leading plus is allowed. */
  function ByteFromOctal(digits: string): Option<Byte>
    requires |digits| == 3
  {
    if !((IsOctal(digits[0]) || digits[0] == '+') && IsOctal(digits[1]) && IsOctal(digits[2])) then None
    else
      var high := if digits[0] == '+' then 0 else OctalDigit(digits[0]);
      var value := 64 * high + 8 * OctalDigit(digits[1]) + OctalDigit(digits[2]);
      if value > 255 then None else Some(value)
  }

  function EscapedByte(rest: string): Option<Byte> {
    if |rest| < 3 then None else ByteFromOctal(rest[..3])
  }

  /** A field with its escapes undone; a backslash that starts none stands for itself. */
  function Unescaped(field: string): string {
    if field == "" then ""
    else if field[0] != '\\' then [field[0]] + Unescaped(field[1..])
    else
      match EscapedByte(field[1..])
      case Some(byte) => [byte as char] + Unescaped(field[4..])
      case None => ['\\'] + Unescaped(field[1..])
  }

  method Unescape(field: string) returns (path: string)
    ensures path == Unescaped(field)
  {
    path := "";
    var rest := field;
    var index := FindBackslash(rest);
    while index.Some?
      invariant path + Unescaped(rest) == Unescaped(field)
      invariant index == FirstBackslash(rest)
      decreases |rest|
    {
      FirstBackslashIsThere(rest);
      PlainMoves(path, rest, index.value);
      path := path + rest[..index.value];
      rest := rest[index.value..];
      EscapeMoves(path, rest);
      match EscapedByte(rest[1..]) {
        case Some(byte) =>
          path := path + [byte as char];
          rest := rest[4..];
        case None =>
          path := path + ['\\'];
          rest := rest[1..];
      }
      index := FindBackslash(rest);
    }
    FirstBackslashIsThere(rest);
    PlainPrefix(rest, |rest|);
    path := path + rest;
  }

  /** Plain text moves over as it is. */
  lemma {:induction false} PlainMoves(path: string, rest: string, n: nat)
    requires n <= |rest| && '\\' !in rest[..n]
    ensures (path + rest[..n]) + Unescaped(rest[n..]) == path + Unescaped(rest)
  {
    PlainPrefix(rest, n);
    assert (path + rest[..n]) + Unescaped(rest[n..]) == path + (rest[..n] + Unescaped(rest[n..]));
  }

  /** A backslash moves over as the byte it escapes, or as itself. */
  lemma {:induction false} EscapeMoves(path: string, rest: string)
    requires rest != "" && rest[0] == '\\'
    ensures EscapedByte(rest[1..]).Some? ==>
              |rest| >= 4 && (path + [EscapedByte(rest[1..]).value as char]) + Unescaped(rest[4..]) ==
                path + Unescaped(rest)
    ensures EscapedByte(rest[1..]).None? ==> (path + ['\\']) + Unescaped(rest[1..]) == path + Unescaped(rest)
  {
    match EscapedByte(rest[1..])
    case Some(byte) =>
      assert (path + [byte as char]) + Unescaped(rest[4..]) == path + ([byte as char] + Unescaped(rest[4..]));
    case None =>
      assert (path + ['\\']) + Unescaped(rest[1..]) == path + (['\\'] + Unescaped(rest[1..]));
  }

  function FirstBackslash(text: string): Option<nat> {
    if text == "" then None
    else if text[0] == '\\' then Some(0)
    else
      match FirstBackslash(text[1..])
      case Some(index) => Some(index + 1)
      case None => None
  }

  method FindBackslash(text: string) returns (index: Option<nat>)
    ensures index == FirstBackslash(text)
  {
    var i := 0;
    while i < |text| && text[i] != '\\'
      invariant i <= |text|
      invariant FirstBackslash(text) == (match FirstBackslash(text[i..]) case Some(k) => Some(i + k) case None => None)
    {
      i := i + 1;
    }
    index := if i < |text| then Some(i) else None;
  }

  lemma {:induction false} FirstBackslashIsThere(text: string)
    ensures match FirstBackslash(text)
            case Some(index) => index < |text| && text[index] == '\\' && '\\' !in text[..index]
            case None => '\\' !in text
  {
    if text != "" && text[0] != '\\' {
      FirstBackslashIsThere(text[1..]);
    }
  }

  lemma {:induction false} PlainPrefix(text: string, n: nat)
    requires n <= |text| && '\\' !in text[..n]
    ensures Unescaped(text) == text[..n] + Unescaped(text[n..])
  {
    if n > 0 {
      assert text[..n][0] == text[0];
      assert text[1..][..n - 1] == text[..n][1..];
      PlainPrefix(text[1..], n - 1);
      assert text[1..][n - 1..] == text[n..];
    }
  }

  /** Which escapes there are: three octal digits that fit in a byte, or two after a plus. */
  lemma EscapesAreBytes(digits: string)
    requires |digits| == 3
    ensures IsOctal(digits[0]) && IsOctal(digits[1]) && IsOctal(digits[2]) ==>
              var n := 64 * (digits[0] as int - 48) + 8 * (digits[1] as int - 48) + (digits[2] as int - 48);
              ByteFromOctal(digits) == if n < 256 then Some(n) else None
    ensures digits[0] == '+' && IsOctal(digits[1]) && IsOctal(digits[2]) ==>
              ByteFromOctal(digits) == Some(8 * (digits[1] as int - 48) + (digits[2] as int - 48))
    ensures ByteFromOctal(digits).Some? ==>
              (IsOctal(digits[0]) || digits[0] == '+') && IsOctal(digits[1]) && IsOctal(digits[2])
  {
  }

  /** The character at `i` starts no escape. */
  predicate PlainAt(field: string, i: nat)
    requires i < |field|
  {
    field[i] == '\\' ==> EscapedByte(field[i + 1..]).None?
  }

  /** A field in which no backslash starts an escape stands for itself. */
  lemma {:induction false} NothingToUnescape(field: string)
    requires forall i :: 0 <= i < |field| ==> PlainAt(field, i)
    ensures Unescaped(field) == field
  {
    if field != "" {
      forall i | 0 <= i < |field| - 1 ensures PlainAt(field[1..], i) {
        assert PlainAt(field, i + 1) && field[1..][i + 1..] == field[i + 2..];
      }
      NothingToUnescape(field[1..]);
      assert field == [field[0]] + field[1..] && PlainAt(field, 0);
    }
  }

  /* What the kernel writes. */

  /** A character as the kernel escapes it: a backslash and three octal digits. */
  function OctalEscape(c: char): string
    requires c as int < 256
  {
    ['\\', ('0' as int + c as int / 64) as char, ('0' as int + c as int / 8 % 8) as char,
     ('0' as int + c as int % 8) as char]
  }

  /** A text with every character of `special` escaped. */
  function Escaped(text: string, special: set<char>): string
    requires forall c :: c in special ==> c as int < 256
  {
    if text == "" then ""
    else (if text[0] in special then OctalEscape(text[0]) else [text[0]]) + Escaped(text[1..], special)
  }

  /** Space, tab, newline and backslash are what the kernel escapes in a path of this table. */
  const PATH_SPECIAL: set<char> := {' ', '\t', '\n', '\\'}

  lemma {:induction false} OctalRoundTrip(c: char)
    requires c as int < 256
    ensures var escape := OctalEscape(c);
            |escape| == 4 && escape[0] == '\\' && EscapedByte(escape[1..]) == Some(c as int)
  {
    var n := c as int;
    assert n == 64 * (n / 64) + 8 * (n / 8 % 8) + n % 8;
    assert OctalEscape(c)[1..][..3] == OctalEscape(c)[1..];
  }

  /** Unescaping undoes the kernel's escaping, whatever else a kernel escapes besides the backslash. Characters
      stand for the bytes the kernel escapes one by one. */
  lemma {:induction false} UnescapeUndoesEscape(text: string, special: set<char>)
    requires forall c :: c in special ==> c as int < 256
    requires '\\' in special
    ensures Unescaped(Escaped(text, special)) == text
  {
    if text != "" {
      UnescapeUndoesEscape(text[1..], special);
      var rest := Escaped(text[1..], special);
      if text[0] in special {
        var escape := OctalEscape(text[0]);
        OctalRoundTrip(text[0]);
        var whole := escape + rest;
        assert whole[0] == '\\' && whole[1..][..3] == escape[1..][..3] && whole[4..] == rest;
      } else {
        assert ([text[0]] + rest)[1..] == rest;
      }
    }
  }

  /** An escaped text holds none of the characters that were escaped, other than the escapes' own. */
  lemma {:induction false} EscapedIsClean(text: string, special: set<char>, c: char)
    requires forall d :: d in special ==> d as int < 256
    requires c in special && c != '\\' && !IsOctal(c)
    ensures c !in Escaped(text, special)
  {
    if text != "" {
      EscapedIsClean(text[1..], special, c);
    }
  }

  /** A name without special characters is its own escape, which is why share names travel as they are. */
  lemma {:induction false} NothingToEscape(text: string, special: set<char>)
    requires forall c :: c in special ==> c as int < 256
    requires forall i :: 0 <= i < |text| ==> text[i] !in special
    ensures Escaped(text, special) == text
  {
    if text != "" {
      NothingToEscape(text[1..], special);
    }
  }

  /* The reader. */

  function AnameOf(options: seq<string>): string {
    if options == [] then ""
    else if "aname=" <= options[0] then options[0][6..]
    else AnameOf(options[1..])
  }

  function ParseLine(line: string): Option<MountedShare> {
    match SplitAtHyphen(line)
    case None => None
    case Some((before, after)) =>
      var fields := Split(before, ' ');
      if |fields| <= 4 then None
      else
        var rest := Split(after, ' ');
        if rest[0] != "9p" || |rest| <= 2 then None
        else Some(MountedShare(Unescaped(fields[4]), AnameOf(Split(rest[2], ','))))
  }

  function ParseLines(lines: seq<string>): seq<MountedShare> {
    if lines == [] then []
    else
      match ParseLine(lines[0])
      case None => ParseLines(lines[1..])
      case Some(mount) => [mount] + ParseLines(lines[1..])
  }

  function Parse(mountinfo: string): seq<MountedShare> {
    ParseLines(Lines(mountinfo))
  }

  /* Splitting undoes joining. */

  lemma {:induction false} SplitPlain(text: string, separator: char)
    requires separator !in text
    ensures Split(text, separator) == [text]
  {
    if text != "" {
      assert text == [text[0]] + text[1..];
      SplitPlain(text[1..], separator);
    }
  }

  lemma {:induction false} SplitFirst(first: string, rest: string, separator: char)
    requires separator !in first
    ensures Split(first + [separator] + rest, separator) == [first] + Split(rest, separator)
  {
    var text := first + [separator] + rest;
    if first == "" {
      assert text[0] == separator && text[1..] == rest;
    } else {
      assert text[1..] == first[1..] + [separator] + rest;
      assert forall c :: c in first[1..] ==> c in first;
      SplitFirst(first[1..], rest, separator);
      assert [first[0]] + first[1..] == first;
    }
  }

  lemma {:induction false} SplitUndoesJoin(pieces: seq<string>, separator: char)
    requires pieces != [] && forall i :: 0 <= i < |pieces| ==> separator !in pieces[i]
    ensures Split(Join(pieces, separator), separator) == pieces
  {
    if |pieces| == 1 {
      SplitPlain(pieces[0], separator);
    } else {
      SplitUndoesJoin(pieces[1..], separator);
      SplitFirst(pieces[0], Join(pieces[1..], separator), separator);
    }
  }

  lemma {:induction false} JoinHolds(pieces: seq<string>, separator: char, c: char)
    requires pieces != [] && c != separator && forall i :: 0 <= i < |pieces| ==> c !in pieces[i]
    ensures c !in Join(pieces, separator)
  {
    if |pieces| > 1 {
      JoinHolds(pieces[1..], separator, c);
    }
  }

  /* The lone hyphen is found where the kernel put it. */

  predicate IsField(text: string) {
    ' ' !in text && '\n' !in text && text != "-"
  }

  lemma {:induction false} HyphenAfterField(field: string, rest: string)
    requires IsField(field)
    ensures SplitAtHyphen(field + " - " + rest) == Some((field, rest))
  {
    var line := field + " - " + rest;
    if field == "" {
      assert line[..3] == " - " && line[3..] == rest;
    } else {
      assert line[0] == field[0] && line[0] != ' ';
      assert line[1..] == field[1..] + " - " + rest;
      HyphenInsideField(field[1..], rest);
      assert [field[0]] + field[1..] == field;
    }
  }

  lemma {:induction false} HyphenInsideField(tail: string, rest: string)
    requires ' ' !in tail
    ensures SplitAtHyphen(tail + " - " + rest) == Some((tail, rest))
  {
    var line := tail + " - " + rest;
    if tail == "" {
      assert line[..3] == " - " && line[3..] == rest;
    } else {
      assert line[0] == tail[0] && line[0] != ' ';
      assert line[1..] == tail[1..] + " - " + rest;
      HyphenInsideField(tail[1..], rest);
      assert [tail[0]] + tail[1..] == tail;
    }
  }

  /** Skipping one whole field: the text after it decides where the hyphen is. */
  lemma {:induction false} HyphenSkipsField(field: string, tail: string)
    requires ' ' !in field
    requires |tail| >= 3 && tail[0] == ' ' && SplitAtHyphen(tail).Some?
    ensures SplitAtHyphen(field + tail) == Some((field + SplitAtHyphen(tail).value.0, SplitAtHyphen(tail).value.1))
  {
    var line := field + tail;
    if field == "" {
      assert line == tail;
      assert "" + SplitAtHyphen(tail).value.0 == SplitAtHyphen(tail).value.0;
    } else {
      assert line[0] == field[0] && line[0] != ' ' && line[1..] == field[1..] + tail;
      HyphenSkipsField(field[1..], tail);
      assert [field[0]] + (field[1..] + SplitAtHyphen(tail).value.0) == field + SplitAtHyphen(tail).value.0;
    }
  }

  lemma {:induction false} HyphenAfterFields(fields: seq<string>, rest: string)
    requires fields != [] && forall i :: 0 <= i < |fields| ==> IsField(fields[i])
    ensures SplitAtHyphen(Join(fields, ' ') + " - " + rest) == Some((Join(fields, ' '), rest))
  {
    if |fields| == 1 {
      HyphenAfterField(fields[0], rest);
    } else {
      HyphenAfterFields(fields[1..], rest);
      SpaceBeforeField(fields[1..], rest);
      var later := Join(fields[1..], ' ');
      HyphenSkipsField(fields[0], " " + (later + " - " + rest));
      FieldRegroups(fields[0], later, rest);
    }
  }

  lemma FieldRegroups(field: string, later: string, rest: string)
    ensures field + (" " + (later + " - " + rest)) == (field + [' '] + later) + " - " + rest
    ensures field + (" " + later) == field + [' '] + later
  {
  }

  /** The space before a field is not the space of the hyphen, because no field is a hyphen. */
  lemma SpaceBeforeField(fields: seq<string>, rest: string)
    requires fields != [] && forall i :: 0 <= i < |fields| ==> IsField(fields[i])
    requires SplitAtHyphen(Join(fields, ' ') + " - " + rest) == Some((Join(fields, ' '), rest))
    ensures SplitAtHyphen(" " + (Join(fields, ' ') + " - " + rest)) == Some((" " + Join(fields, ' '), rest))
  {
    var inner := Join(fields, ' ') + " - " + rest;
    var tail := " " + inner;
    assert tail[1..] == inner;
    assert fields[0] != "" ==> inner[0] == fields[0][0];
    assert |fields[0]| > 1 ==> inner[1] == fields[0][1];
    assert tail[1] == inner[0] && tail[2] == inner[1];
    assert tail[..3] != " - ";
  }

  /* A whole table. */

  datatype Entry = Entry(id: string, parent: string, device: string, root: string, mountPoint: string, options: string,
                         optional: seq<string>, fsType: string, source: string, superOptions: seq<string>)

  function BeforeHyphen(entry: Entry): seq<string> {
    [entry.id, entry.parent, entry.device, entry.root, Escaped(entry.mountPoint, PATH_SPECIAL), entry.options] +
      entry.optional
  }

  function AfterHyphen(entry: Entry): seq<string>
    requires entry.superOptions != []
  {
    [entry.fsType, entry.source, Join(entry.superOptions, ',')]
  }

  function Line(entry: Entry): string
    requires entry.superOptions != []
  {
    Join(BeforeHyphen(entry), ' ') + " - " + Join(AfterHyphen(entry), ' ')
  }

  /** What the kernel never writes into a field: a space, a line end, or, before the hyphen, a hyphen alone. */
  predicate WellFormed(entry: Entry) {
    && (forall field :: field in [entry.id, entry.parent, entry.device, entry.root, entry.options] ==> IsField(field))
    && (forall i :: 0 <= i < |entry.optional| ==> IsField(entry.optional[i]))
    && entry.mountPoint != "" && entry.mountPoint[0] == '/'
    && IsPlain(entry.fsType) && IsPlain(entry.source)
    && entry.superOptions != []
    && (forall i :: 0 <= i < |entry.superOptions| ==> IsPlain(entry.superOptions[i]) && ',' !in entry.superOptions[i])
  }

  predicate IsPlain(text: string) {
    ' ' !in text && '\n' !in text && '\r' !in text
  }

  /** What the table says of one entry: the real path of a 9p mount and the share it carries, or nothing. */
  function Meaning(entry: Entry): Option<MountedShare> {
    if entry.fsType == "9p" then Some(MountedShare(entry.mountPoint, AnameOf(entry.superOptions))) else None
  }

  lemma {:induction false} FieldsBefore(entry: Entry)
    requires WellFormed(entry)
    ensures forall i :: 0 <= i < |BeforeHyphen(entry)| ==> IsField(BeforeHyphen(entry)[i])
  {
    var path := Escaped(entry.mountPoint, PATH_SPECIAL);
    EscapedIsClean(entry.mountPoint, PATH_SPECIAL, ' ');
    EscapedIsClean(entry.mountPoint, PATH_SPECIAL, '\n');
    assert path[0] == '/';
    var named := [entry.id, entry.parent, entry.device, entry.root, entry.options];
    assert named[0] in named && named[1] in named && named[2] in named && named[3] in named && named[4] in named;
  }

  /** Whatever optional fields an entry has, its line is read as what it means. */
  lemma {:induction false} LineIsRead(entry: Entry)
    requires WellFormed(entry)
    ensures ParseLine(Line(entry)) == Meaning(entry)
  {
    FieldsBefore(entry);
    HyphenAfterFields(BeforeHyphen(entry), Join(AfterHyphen(entry), ' '));
    SplitUndoesJoin(BeforeHyphen(entry), ' ');
    AfterHyphenIsRead(entry);
    UnescapeUndoesEscape(entry.mountPoint, PATH_SPECIAL);
  }

  predicate HyphenAt(line: string, i: nat) {
    i + 3 <= |line| && line[i] == ' ' && line[i + 1] == '-' && line[i + 2] == ' '
  }

  /** The separator is the first lone hyphen between spaces; without one a line has none. */
  lemma {:induction false} SeparatorIsTheFirst(line: string)
    ensures match SplitAtHyphen(line)
            case Some((before, after)) =>
              line == before + " - " + after && HyphenAt(line, |before|) && NoHyphenBefore(line, |before|)
            case None => NoHyphenBefore(line, |line|)
  {
    if |line| >= 3 {
      assert line[..3] == [line[0], line[1], line[2]];
      if line[..3] == " - " {
        assert line == "" + " - " + line[3..];
      } else {
        SeparatorIsTheFirst(line[1..]);
        match SplitAtHyphen(line[1..])
        case Some((before, after)) =>
          assert line == [line[0]] + (before + " - " + after);
          OneLater(line, |before|);
        case None => OneLater(line, |line| - 1);
      }
    }
  }

  ghost predicate NoHyphenBefore(line: string, n: nat) {
    forall i: nat :: i < n ==> !HyphenAt(line, i)
  }

  lemma {:induction false} OneLater(line: string, n: nat)
    requires line != "" && !HyphenAt(line, 0) && NoHyphenBefore(line[1..], n)
    ensures NoHyphenBefore(line, n + 1)
  {
    forall i: nat | i < n + 1 ensures !HyphenAt(line, i) {
      if i > 0 {
        assert !HyphenAt(line[1..], i - 1);
      }
    }
  }

  /** Any line at all with a separator: it names a mount exactly when there are five fields before it and three
      after it, of which the first is `9p`; the fifth field is the path, and the third after it holds the share. */
  lemma {:induction false} AnyLineIsRead(fields: seq<string>, rest: seq<string>)
    requires fields != [] && forall i :: 0 <= i < |fields| ==> IsField(fields[i])
    requires rest != [] && forall i :: 0 <= i < |rest| ==> ' ' !in rest[i]
    ensures ParseLine(Join(fields, ' ') + " - " + Join(rest, ' ')) ==
            if |fields| >= 5 && |rest| >= 3 && rest[0] == "9p"
            then Some(MountedShare(Unescaped(fields[4]), AnameOf(Split(rest[2], ','))))
            else None
  {
    HyphenAfterFields(fields, Join(rest, ' '));
    SplitUndoesJoin(fields, ' ');
    SplitUndoesJoin(rest, ' ');
  }

  /** A line that ends in a carriage return is read without it. */
  lemma ReturnsAreDropped(line: string, rest: string)
    requires '\n' !in line
    ensures Lines(line + ['\r'] + ['\n'] + rest) == [line] + Lines(rest)
  {
    var ended := line + ['\r'];
    LinesConcat(ended, rest);
    SplitPlain(ended, '\n');
    TerminatedOne(ended);
    assert ended[..|ended| - 1] == line;
  }

  /** The last line is read as it is when nothing ends it. */
  lemma LastLineIsRead(before: string, line: string)
    requires '\n' !in line && line != ""
    ensures Lines(line) == [line]
    ensures Lines(before + ['\n'] + line) == Lines(before + ['\n']) + [line]
  {
    SplitPlain(line, '\n');
    assert [line][..0] == [];
    LinesConcat(before, line);
    LinesConcat(before, "");
    assert before + ['\n'] + "" == before + ['\n'];
    assert Lines("") == [];
    assert Terminated(Split(before, '\n')) + [] == Terminated(Split(before, '\n'));
  }

  /** Without an `aname` the share has no name. */
  lemma {:induction false} NoNameWithoutAname(options: seq<string>)
    requires forall i :: 0 <= i < |options| ==> !("aname=" <= options[i])
    ensures AnameOf(options) == ""
  {
    if options != [] {
      NoNameWithoutAname(options[1..]);
    }
  }

  lemma {:induction false} AfterHyphenIsRead(entry: Entry)
    requires WellFormed(entry)
    ensures Split(Join(AfterHyphen(entry), ' '), ' ') == AfterHyphen(entry)
    ensures Split(AfterHyphen(entry)[2], ',') == entry.superOptions
  {
    JoinHolds(entry.superOptions, ',', ' ');
    assert forall i :: 0 <= i < |AfterHyphen(entry)| ==> ' ' !in AfterHyphen(entry)[i];
    SplitUndoesJoin(AfterHyphen(entry), ' ');
    SplitUndoesJoin(entry.superOptions, ',');
  }

  lemma {:induction false} LineHasNoTerminator(entry: Entry)
    requires WellFormed(entry)
    ensures '\n' !in Line(entry)
    ensures Line(entry) != "" && Line(entry)[|Line(entry)| - 1] != '\r'
  {
    FieldsBefore(entry);
    var before, after := BeforeHyphen(entry), AfterHyphen(entry);
    JoinHolds(before, ' ', '\n');
    JoinHolds(entry.superOptions, ',', '\n');
    JoinHolds(entry.superOptions, ',', '\r');
    assert forall i :: 0 <= i < |after| ==> '\n' !in after[i];
    assert forall i :: 0 <= i < |after| ==> '\r' !in after[i];
    JoinHolds(after, ' ', '\n');
    JoinHolds(after, ' ', '\r');
    var tail := " - " + Join(after, ' ');
    assert Line(entry) == Join(before, ' ') + tail;
    assert '\r' !in tail;
    assert Line(entry)[|Line(entry)| - 1] == tail[|tail| - 1];
  }

  function Table(entries: seq<Entry>): string
    requires forall i :: 0 <= i < |entries| ==> WellFormed(entries[i])
  {
    if entries == [] then "" else assert WellFormed(entries[0]); Line(entries[0]) + ['\n'] + Table(entries[1..])
  }

  function Meanings(entries: seq<Entry>): seq<MountedShare> {
    if entries == [] then []
    else (if Meaning(entries[0]).Some? then [Meaning(entries[0]).value] else []) + Meanings(entries[1..])
  }

  /** Every well-formed table is read as exactly its 9p entries, in order, with real paths and share names. */
  lemma {:induction false} TableIsRead(entries: seq<Entry>)
    requires forall i :: 0 <= i < |entries| ==> WellFormed(entries[i])
    ensures Parse(Table(entries)) == Meanings(entries)
  {
    if entries != [] {
      TableIsRead(entries[1..]);
      var line := Line(entries[0]);
      LineHasNoTerminator(entries[0]);
      LineIsRead(entries[0]);
      LinesOfFirst(line, Table(entries[1..]));
      assert Lines(Table(entries))[1..] == Lines(Table(entries[1..]));
    }
  }

  lemma LinesOfFirst(line: string, rest: string)
    requires '\n' !in line && line != "" && line[|line| - 1] != '\r'
    ensures Lines(line + ['\n'] + rest) == [line] + Lines(rest)
  {
    LinesConcat(line, rest);
    SplitPlain(line, '\n');
    TerminatedOne(line);
  }

  lemma TerminatedOne(line: string)
    ensures Terminated([line]) == [WithoutReturn(line)]
  {
    assert [line][1..] == [];
  }

  /* Lines stand for themselves. */

  lemma {:induction false} SplitConcat(a: string, b: string, separator: char)
    ensures Split(a + [separator] + b, separator) == Split(a, separator) + Split(b, separator)
  {
    var text := a + [separator] + b;
    if a == "" {
      assert text[0] == separator && text[1..] == b;
    } else {
      assert text[0] == a[0] && text[1..] == a[1..] + [separator] + b;
      SplitConcat(a[1..], b, separator);
      GrownConcat(a[0], Split(a[1..], separator), Split(b, separator));
      assert [""] + (Split(a[1..], separator) + Split(b, separator)) ==
               ([""] + Split(a[1..], separator)) + Split(b, separator);
    }
  }

  lemma GrownConcat(c: char, rest: seq<string>, more: seq<string>)
    requires rest != []
    ensures Grown(c, rest + more) == Grown(c, rest) + more
  {
    assert (rest + more)[0] == rest[0] && (rest + more)[1..] == rest[1..] + more;
  }

  lemma {:induction false} TerminatedConcat(a: seq<string>, b: seq<string>)
    ensures Terminated(a + b) == Terminated(a) + Terminated(b)
  {
    if a == [] {
      assert a + b == b;
    } else {
      assert (a + b)[0] == a[0] && (a + b)[1..] == a[1..] + b;
      TerminatedConcat(a[1..], b);
    }
  }

  lemma LinesConcat(a: string, b: string)
    ensures Lines(a + ['\n'] + b) == Terminated(Split(a, '\n')) + Lines(b)
  {
    SplitConcat(a, b, '\n');
    LinesOfBoth(Split(a, '\n'), Split(b, '\n'));
  }

  lemma {:induction false} LinesOfBoth(first: seq<string>, pieces: seq<string>)
    requires pieces != []
    ensures LinesOf(first + pieces) == Terminated(first) + LinesOf(pieces)
  {
    var all, front, last := first + pieces, pieces[..|pieces| - 1], pieces[|pieces| - 1];
    assert all[|all| - 1] == last && all[..|all| - 1] == first + front;
    TerminatedConcat(first, front);
    var unterminated := if last == "" then [] else [last];
    assert (Terminated(first) + Terminated(front)) + unterminated ==
             Terminated(first) + (Terminated(front) + unterminated);
  }

  lemma {:induction false} ParseLinesConcat(a: seq<string>, b: seq<string>)
    ensures ParseLines(a + b) == ParseLines(a) + ParseLines(b)
  {
    if a == [] {
      assert a + b == b;
    } else {
      assert (a + b)[0] == a[0] && (a + b)[1..] == a[1..] + b;
      ParseLinesConcat(a[1..], b);
    }
  }

  /** Text that ends its last line is read for itself, whatever follows. */
  lemma ParseConcat(before: string, after: string)
    ensures Parse(before + ['\n'] + after) == Parse(before + ['\n']) + Parse(after)
  {
    LinesConcat(before, after);
    LinesConcat(before, "");
    assert before + ['\n'] + "" == before + ['\n'];
    assert Lines("") == [];
    assert Terminated(Split(before, '\n')) + [] == Terminated(Split(before, '\n'));
    ParseLinesConcat(Terminated(Split(before, '\n')), Lines(after));
  }

  /** A line that cannot be read, for whatever reason and wherever it stands, costs the table that line and
      nothing else. */
  lemma {:induction false} UnreadableLineIsSkipped(before: string, line: string, after: string)
    requires before == "" || before[|before| - 1] == '\n'
    requires '\n' !in line && ParseLine(WithoutReturn(line)).None?
    ensures Parse(before + (line + ['\n'] + after)) == Parse(before) + Parse(after)
  {
    var tail := line + ['\n'] + after;
    LinesConcat(line, after);
    SplitPlain(line, '\n');
    TerminatedOne(line);
    assert ([WithoutReturn(line)] + Lines(after))[1..] == Lines(after);
    assert Parse(tail) == Parse(after);
    if before == "" {
      assert before + tail == tail;
      assert Parse("") == [];
    } else {
      var front := before[..|before| - 1];
      assert before == front + ['\n'] && before + tail == front + ['\n'] + tail;
      ParseConcat(front, tail);
    }
  }

  /** A share this agent mounts is named back by the table as it was named in the manifest: no kernel
      escaping of separators touches such a name, and the table's first `aname` is the mount's. */
  lemma ShareNamesTravel(name: string, before: seq<string>, after: seq<string>, special: set<char>)
    requires GpuTargets.IsMountableName(name)
    requires forall c :: c in special ==> c as int < 256 && !GpuTargets.IsNameCharacter(c)
    requires forall i :: 0 <= i < |before| ==> !("aname=" <= before[i])
    ensures AnameOf(before + ["aname=" + Escaped(name, special)] + after) == name
    decreases |before|
  {
    NothingToEscape(name, special);
    var options := before + ["aname=" + name] + after;
    if before == [] {
      assert options[0] == "aname=" + name;
      assert ("aname=" + name)[6..] == name;
    } else {
      assert options[1..] == before[1..] + ["aname=" + name] + after;
      ShareNamesTravel(name, before[1..], after, special);
    }
  }
}
