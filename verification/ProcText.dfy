/** The two text files that the symbolizer reads: `/proc/{pid}/maps` and
    `/proc/kallsyms`, as the kernel prints them and as they are parsed. */
module ProcText {
  import opened Words
  import opened Numerals
  import opened Lookup
  import opened Symbols
  import opened FoldedText

  // ----- Hexadecimal text -----

  predicate IsHexDigit(c: char) {
    '0' <= c <= '9' || 'a' <= c <= 'f' || 'A' <= c <= 'F'
  }

  predicate AllHex(s: string) {
    forall i | 0 <= i < |s| :: IsHexDigit(s[i])
  }

  function HexDigitValue(c: char): (d: nat)
    requires IsHexDigit(c)
    ensures d < 16
  {
    if '0' <= c <= '9' then c as int - '0' as int
    else if 'a' <= c <= 'f' then c as int - 'a' as int + 10
    else c as int - 'A' as int + 10
  }

  /** The number that hexadecimal digits denote, without any bound. */
  function HexValue(s: string): nat
    requires AllHex(s)
  {
    if s == "" then 0 else 16 * HexValue(s[..|s| - 1]) + HexDigitValue(s[|s| - 1])
  }

  /** Left-to-right accumulation of hexadecimal digits. */
  function AccumulateHex(s: string): Option<u64>
    requires AllHex(s)
  {
    if s == "" then Some(0) else CheckedDigit(AccumulateHex(s[..|s| - 1]), 16, HexDigitValue(s[|s| - 1]))
  }

  /** `u64::from_str_radix(s, 16)`: an optional plus sign, then digits. */
  function ParseHex64(s: string): Option<u64> {
    var digits := if s != "" && s[0] == '+' then s[1..] else s;
    if digits == "" || !AllHex(digits) then None else AccumulateHex(digits)
  }

  lemma {:induction false} AccumulateIsValue(s: string)
    requires AllHex(s)
    ensures AccumulateHex(s) == if HexValue(s) < TWO64 then Some(HexValue(s)) else None
  {
    if s != "" {
      AccumulateIsValue(s[..|s| - 1]);
    }
  }

  /** Zeros in front up to a given width, as `%08lx` and `%016lx` print. */
  function Padded(s: string, width: nat): (p: string)
    ensures s != "" ==> p != ""
    decreases width - |s|
  {
    if |s| >= width then s else Padded("0" + s, width)
  }

  lemma {:induction false} LeadingZero(s: string)
    requires AllHex(s)
    ensures AllHex("0" + s) && HexValue("0" + s) == HexValue(s)
  {
    if s == "" {
      assert ("0" + s)[..0] == "";
    } else {
      var n := |s| - 1;
      assert ("0" + s)[..|s|] == "0" + s[..n];
      LeadingZero(s[..n]);
    }
  }

  lemma {:induction false} PaddedValue(s: string, width: nat)
    requires AllHex(s)
    ensures AllHex(Padded(s, width)) && HexValue(Padded(s, width)) == HexValue(s)
    decreases width - |s|
  {
    if |s| < width {
      LeadingZero(s);
      PaddedValue("0" + s, width);
    }
  }

  lemma {:induction false} ValueOfHex(n: nat)
    ensures AllHex(Hex(n)) && HexValue(Hex(n)) == n
  {
    if n >= 16 {
      ValueOfHex(n / 16);
      assert Hex(n)[..|Hex(n)| - 1] == Hex(n / 16);
    } else {
      assert Hex(n)[..0] == "";
    }
  }

  /** A number printed in hexadecimal, of any width, reads back as itself. */
  lemma HexRoundTrip(n: u64, width: nat)
    ensures ParseHex64(Padded(Hex(n), width)) == Some(n)
    ensures AllHex(Padded(Hex(n), width)) && Padded(Hex(n), width) != ""
  {
    ValueOfHex(n);
    PaddedValue(Hex(n), width);
    AccumulateIsValue(Padded(Hex(n), width));
  }

  /** A plus sign before the digits changes nothing. */
  lemma PlusSignReads(n: u64, width: nat)
    ensures ParseHex64("+" + Padded(Hex(n), width)) == Some(n)
  {
    HexRoundTrip(n, width);
    assert ("+" + Padded(Hex(n), width))[1..] == Padded(Hex(n), width);
  }

  // ----- Fields -----

  /** The characters with the Unicode property White_Space. */
  predicate White(c: char) {
    || 9 <= c as int <= 13 || c == ' ' || c as int == 0x85 || c as int == 0xA0 || c as int == 0x1680
    || 0x2000 <= c as int <= 0x200A || c as int == 0x2028 || c as int == 0x2029
    || c as int == 0x202F || c as int == 0x205F || c as int == 0x3000
  }

  predicate NoWhite(s: string) {
    forall i | 0 <= i < |s| :: !White(s[i])
  }

  /** The first word's length: up to white space or the end. */
  function WordEnd(s: string): (e: nat)
    ensures e <= |s| && NoWhite(s[..e]) && (e < |s| ==> White(s[e]))
  {
    if s == "" || White(s[0]) then 0
    else
      var e := WordEnd(s[1..]);
      assert s[..e + 1] == [s[0]] + s[1..][..e];
      e + 1
  }

  /** `split_whitespace`. */
  function Fields(s: string): seq<string>
    decreases |s|
  {
    if s == "" then []
    else if White(s[0]) then Fields(s[1..])
    else [s[..WordEnd(s)]] + Fields(s[WordEnd(s)..])
  }

  lemma {:induction false} WordEndOf(w: string, rest: string)
    requires NoWhite(w) && (rest != "" ==> White(rest[0]))
    ensures WordEnd(w + rest) == |w|
  {
    if w == "" {
      assert w + rest == rest;
    } else {
      assert (w + rest)[1..] == w[1..] + rest;
      WordEndOf(w[1..], rest);
    }
  }

  lemma FieldsWord(w: string, rest: string)
    requires w != "" && NoWhite(w) && (rest != "" ==> White(rest[0]))
    ensures Fields(w + rest) == [w] + Fields(rest)
  {
    WordEndOf(w, rest);
    assert (w + rest)[..|w|] == w && (w + rest)[|w|..] == rest;
  }

  lemma FieldsBlank(c: char, rest: string)
    requires White(c)
    ensures Fields([c] + rest) == Fields(rest)
  {
    assert ([c] + rest)[1..] == rest;
  }

  /** White space at the end makes no field. */
  lemma {:induction false} FieldsEnd(s: string, c: char)
    requires White(c)
    ensures Fields(s + [c]) == Fields(s)
    decreases |s|
  {
    if s == "" {
      assert s + [c] == [c] + "";
      FieldsBlank(c, "");
    } else if White(s[0]) {
      assert (s + [c])[1..] == s[1..] + [c];
      FieldsEnd(s[1..], c);
    } else {
      var e := WordEnd(s);
      var w, rest := s[..e], s[e..];
      assert s == w + rest && s + [c] == w + (rest + [c]);
      FieldsWord(w, rest);
      FieldsWord(w, rest + [c]);
      FieldsEnd(rest, c);
    }
  }

  lemma FieldsWithoutReturn(line: string)
    ensures Fields(WithoutReturn(line)) == Fields(line)
  {
    if line != "" && line[|line| - 1] == '\r' {
      FieldsEnd(line[..|line| - 1], '\r');
      assert line == line[..|line| - 1] + ['\r'];
    }
  }

  // ----- /proc/{pid}/maps -----

  function ParseMapLine(line: string): Option<Mapping> {
    MapOfFields(Fields(line))
  }

  function MapOfFields(parts: seq<string>): Option<Mapping> {
    if |parts| < 6 then None
    else
      var addrs := Split(parts[0], '-');
      if |addrs| != 2 then None
      else
        match (ParseHex64(addrs[0]), ParseHex64(addrs[1]), ParseHex64(parts[2]))
        case (Some(start), Some(end), Some(offset)) =>
          if start == 0 || (parts[5] != "" && parts[5][0] == '[') then None
          else Some(Mapping(start, end, offset, parts[5]))
        case _ => None
  }

  lemma TwoPieces(s: string, a: string, b: string)
    ensures Split(s, '-') == [a, b] <==> s == a + "-" + b && '-' !in a && '-' !in b
  {
    if s == a + "-" + b && '-' !in a && '-' !in b {
      SplitOne(a, '-');
      SplitNext(a, b, '-');
    }
    if Split(s, '-') == [a, b] {
      JoinSplit(s, '-');
      JoinNext([a], b, '-');
      assert [a] + [b] == [a, b];
      SplitWithout(s, '-');
      assert '-' !in Split(s, '-')[0] && '-' !in Split(s, '-')[1];
    }
  }

  /** Two numbers around a single dash. */
  ghost predicate IsRange(word: string, start: u64, end: u64) {
    exists a, b :: word == a + "-" + b && '-' !in a && '-' !in b
                   && ParseHex64(a) == Some(start) && ParseHex64(b) == Some(end)
  }

  lemma RangeExact(word: string, start: u64, end: u64)
    ensures IsRange(word, start, end) <==>
              var pieces := Split(word, '-');
              |pieces| == 2 && ParseHex64(pieces[0]) == Some(start) && ParseHex64(pieces[1]) == Some(end)
  {
    var pieces := Split(word, '-');
    if IsRange(word, start, end) {
      var a, b :| word == a + "-" + b && '-' !in a && '-' !in b
                  && ParseHex64(a) == Some(start) && ParseHex64(b) == Some(end);
      TwoPieces(word, a, b);
    }
    if |pieces| == 2 {
      TwoPieces(word, pieces[0], pieces[1]);
      assert pieces == [pieces[0], pieces[1]];
    }
  }

  /** Which lines give which mapping, for any text: at least six words, the first of them
      a range that does not start at zero, the third a number, and a sixth that is no
      bracketed name. */
  lemma MapLineExact(line: string, m: Mapping)
    ensures ParseMapLine(line) == Some(m) <==>
              var words := Fields(line);
              && |words| >= 6 && m.start != 0 && m.path == words[5] && (m.path == "" || m.path[0] != '[')
              && IsRange(words[0], m.start, m.end) && ParseHex64(words[2]) == Some(m.offset)
  {
    if |Fields(line)| >= 6 {
      RangeExact(Fields(line)[0], m.start, m.end);
    }
  }

  function CollectMaps(lines: seq<string>): seq<Mapping> {
    if lines == [] then []
    else
      var rest := CollectMaps(lines[..|lines| - 1]);
      match ParseMapLine(lines[|lines| - 1])
      case None => rest
      case Some(m) => rest + [m]
  }

  function ParseMaps(text: string): seq<Mapping> {
    StableSort(CollectMaps(TextLines(text)), StartOf)
  }

  /** One mapped region, with the columns that are not parsed as plain words;
      the path may be missing and may hold spaces. */
  datatype Region = Region(start: u64, end: u64, perms: string, offset: u64, dev: string, inode: string, path: string)

  predicate Word(s: string) {
    s != "" && NoWhite(s)
  }

  predicate Printable(r: Region) {
    && Word(r.perms) && Word(r.dev) && Word(r.inode)
    && (r.path != "" ==> !White(r.path[0])) && '\n' !in r.path
  }

  /** Words with a blank before each, then the rest of the line. */
  function Blanked(ws: seq<string>, tail: string): string {
    if ws == [] then tail else " " + (ws[0] + Blanked(ws[1..], tail))
  }

  /** The six columns, separated by blanks. */
  function Columns(range: string, middle: seq<string>, path: string): string {
    range + Blanked(middle, " " + path)
  }

  function RegionLine(r: Region): string {
    Columns(Padded(Hex(r.start), 8) + "-" + Padded(Hex(r.end), 8),
            [r.perms, Padded(Hex(r.offset), 8), r.dev, r.inode], r.path)
  }

  function PrintMaps(rs: seq<Region>): string {
    if rs == [] then "" else PrintMaps(rs[..|rs| - 1]) + RegionLine(rs[|rs| - 1]) + "\n"
  }

  /** What a region contributes: nothing if it starts at zero, has no path or is
      a bracketed pseudo-file; otherwise its numbers and its path's first word. */
  function Expected(r: Region): Option<Mapping> {
    if r.path == "" || r.start == 0 || r.path[0] == '[' then None
    else Some(Mapping(r.start, r.end, r.offset, r.path[..WordEnd(r.path)]))
  }

  function ExpectedMaps(rs: seq<Region>): seq<Mapping> {
    if rs == [] then []
    else
      var rest := ExpectedMaps(rs[..|rs| - 1]);
      match Expected(rs[|rs| - 1])
      case None => rest
      case Some(m) => rest + [m]
  }

  lemma HexIsWord(s: string)
    requires AllHex(s) && s != ""
    ensures Word(s) && '-' !in s && ' ' !in s && '\n' !in s
  {
    assert forall i | 0 <= i < |s| :: IsHexDigit(s[i]) && !White(s[i]);
  }

  lemma RangeReads(a: string, b: string)
    requires AllHex(a) && a != "" && AllHex(b) && b != ""
    ensures Word(a + "-" + b) && Split(a + "-" + b, '-') == [a, b]
  {
    HexIsWord(a);
    HexIsWord(b);
    assert [a, b][..1] == [a];
    assert Join([a, b], '-') == a + "-" + b;
    SplitOfJoin([a, b], '-');
  }

  predicate AllWords(ws: seq<string>) {
    forall i | 0 <= i < |ws| :: Word(ws[i])
  }

  lemma BlankFirst(ws: seq<string>, tail: string)
    requires tail != "" ==> White(tail[0])
    ensures Blanked(ws, tail) != "" ==> White(Blanked(ws, tail)[0])
  {
  }

  lemma BlankedNext(ws: seq<string>, tail: string)
    requires ws != [] && Word(ws[0]) && (tail != "" ==> White(tail[0]))
    ensures Fields(Blanked(ws, tail)) == [ws[0]] + Fields(Blanked(ws[1..], tail))
  {
    BlankFirst(ws[1..], tail);
    NextField(ws[0], Blanked(ws[1..], tail));
  }

  lemma HeadFirst(s: seq<string>, t: seq<string>)
    requires s != []
    ensures [s[0]] + (s[1..] + t) == s + t
  {
  }

  lemma {:induction false} BlankedRead(ws: seq<string>, tail: string)
    requires AllWords(ws) && (tail != "" ==> White(tail[0]))
    ensures Fields(Blanked(ws, tail)) == ws + Fields(tail)
  {
    if ws == [] {
      assert ws + Fields(tail) == Fields(tail);
    } else {
      BlankedRead(ws[1..], tail);
      BlankedNext(ws, tail);
      HeadFirst(ws, Fields(tail));
    }
  }

  lemma {:induction false} BlankedOneLine(ws: seq<string>, tail: string)
    requires AllWords(ws) && '\n' !in tail
    ensures '\n' !in Blanked(ws, tail)
  {
    if ws != [] {
      BlankedOneLine(ws[1..], tail);
      WordOneLine(ws[0]);
    }
  }

  /** A blank and a word in front of more columns. */
  lemma NextField(w: string, rest: string)
    requires Word(w) && (rest != "" ==> White(rest[0]))
    ensures Fields(" " + (w + rest)) == [w] + Fields(rest)
  {
    FieldsBlank(' ', w + rest);
    FieldsWord(w, rest);
  }

  lemma WordOneLine(s: string)
    requires NoWhite(s)
    ensures '\n' !in s && ' ' !in s
  {
  }

  lemma ColumnsRead(range: string, middle: seq<string>, path: string)
    requires Word(range) && AllWords(middle)
    ensures Fields(Columns(range, middle, path)) == [range] + middle + Fields(path)
  {
    BlankedRead(middle, " " + path);
    BlankFirst(middle, " " + path);
    FieldsBlank(' ', path);
    FieldsWord(range, Blanked(middle, " " + path));
    Regroup([range], middle, Fields(path));
  }

  lemma Regroup(a: seq<string>, b: seq<string>, c: seq<string>)
    ensures a + (b + c) == a + b + c
  {
  }

  lemma ColumnsOneLine(range: string, middle: seq<string>, path: string)
    requires Word(range) && AllWords(middle) && '\n' !in path
    ensures '\n' !in Columns(range, middle, path)
  {
    WordOneLine(range);
    BlankedOneLine(middle, " " + path);
  }

  lemma PathReads(path: string)
    requires path != "" && !White(path[0])
    ensures Fields(path) != [] && Fields(path)[0] == path[..WordEnd(path)]
    ensures WordEnd(path) > 0
  {
  }

  /** The columns of one line, from the texts of its three numbers. */
  lemma FieldsParsed(r: Region, a: string, b: string, o: string, parts: seq<string>)
    requires Printable(r) && AllHex(a) && a != "" && AllHex(b) && b != ""
    requires ParseHex64(a) == Some(r.start) && ParseHex64(b) == Some(r.end) && ParseHex64(o) == Some(r.offset)
    requires parts == [a + "-" + b, r.perms, o, r.dev, r.inode] + Fields(r.path)
    ensures MapOfFields(parts) == Expected(r)
  {
    RangeReads(a, b);
    PartsAt([a + "-" + b, r.perms, o, r.dev, r.inode], Fields(r.path), parts);
    if r.path != "" {
      PathReads(r.path);
      RangeParsed(parts, a, b, r);
    }
  }

  lemma PartsAt(five: seq<string>, rest: seq<string>, parts: seq<string>)
    requires |five| == 5 && parts == five + rest
    ensures |parts| == 5 + |rest| && parts[0] == five[0] && parts[2] == five[2]
    ensures rest != [] ==> parts[5] == rest[0]
  {
  }

  lemma RangeParsed(parts: seq<string>, a: string, b: string, r: Region)
    requires |parts| >= 6 && Split(parts[0], '-') == [a, b]
    requires ParseHex64(a) == Some(r.start) && ParseHex64(b) == Some(r.end) && ParseHex64(parts[2]) == Some(r.offset)
    ensures MapOfFields(parts) ==
            if r.start == 0 || (parts[5] != "" && parts[5][0] == '[') then None
            else Some(Mapping(r.start, r.end, r.offset, parts[5]))
  {
  }

  lemma FiveFirst(a: string, b: string, c: string, d: string, e: string, rest: seq<string>)
    ensures [a] + [b, c, d, e] + rest == [a, b, c, d, e] + rest
  {
  }

  lemma LineReads(r: Region, a: string, b: string, o: string)
    requires Printable(r) && AllHex(a) && a != "" && AllHex(b) && b != "" && Word(o)
    requires ParseHex64(a) == Some(r.start) && ParseHex64(b) == Some(r.end) && ParseHex64(o) == Some(r.offset)
    ensures ParseMapLine(WithoutReturn(Columns(a + "-" + b, [r.perms, o, r.dev, r.inode], r.path))) == Expected(r)
  {
    var range, middle := a + "-" + b, [r.perms, o, r.dev, r.inode];
    RangeReads(a, b);
    ColumnsRead(range, middle, r.path);
    FieldsWithoutReturn(Columns(range, middle, r.path));
    FiveFirst(range, r.perms, o, r.dev, r.inode, Fields(r.path));
    FieldsParsed(r, a, b, o, Fields(Columns(range, middle, r.path)));
  }

  lemma NumberReads(n: u64)
    ensures var s := Padded(Hex(n), 8); AllHex(s) && s != "" && Word(s) && ParseHex64(s) == Some(n)
  {
    HexRoundTrip(n, 8);
    HexIsWord(Padded(Hex(n), 8));
  }

  lemma RegionOneLine(r: Region, a: string, b: string, o: string)
    requires Printable(r) && AllHex(a) && a != "" && AllHex(b) && b != "" && Word(o)
    ensures '\n' !in Columns(a + "-" + b, [r.perms, o, r.dev, r.inode], r.path)
  {
    RangeReads(a, b);
    ColumnsOneLine(a + "-" + b, [r.perms, o, r.dev, r.inode], r.path);
  }

  lemma RegionReads(r: Region)
    requires Printable(r)
    ensures '\n' !in RegionLine(r) && ParseMapLine(WithoutReturn(RegionLine(r))) == Expected(r)
  {
    var a, b, o := Padded(Hex(r.start), 8), Padded(Hex(r.end), 8), Padded(Hex(r.offset), 8);
    NumberReads(r.start);
    NumberReads(r.end);
    NumberReads(r.offset);
    RegionOneLine(r, a, b, o);
    LineReads(r, a, b, o);
  }

  lemma LinesNext(text: string, line: string)
    requires '\n' !in line && (var ps := Split(text, '\n'); ps[|ps| - 1] == "")
    ensures var ps := Split(text + line + "\n", '\n'); ps[|ps| - 1] == ""
    ensures TextLines(text + line + "\n") == TextLines(text) + [WithoutReturn(line)]
  {
    var ps := Split(text, '\n');
    SplitWholeLine(text, line);
    EndedNext(ps[..|ps| - 1], line);
    assert ps == ps[..|ps| - 1] + [""];
  }

  lemma EndedNext(ended: seq<string>, line: string)
    ensures Ended(ended + [line]) == Ended(ended) + [WithoutReturn(line)]
  {
  }

  lemma CollectMapsNext(lines: seq<string>, line: string)
    ensures CollectMaps(lines + [line]) ==
            match ParseMapLine(line) case None => CollectMaps(lines) case Some(m) => CollectMaps(lines) + [m]
  {
    assert (lines + [line])[..|lines|] == lines;
  }

  lemma {:induction false} MapLinesRead(rs: seq<Region>)
    requires forall i | 0 <= i < |rs| :: Printable(rs[i])
    ensures var ps := Split(PrintMaps(rs), '\n'); ps[|ps| - 1] == ""
    ensures CollectMaps(TextLines(PrintMaps(rs))) == ExpectedMaps(rs)
  {
    if rs != [] {
      var n := |rs| - 1;
      MapLinesRead(rs[..n]);
      RegionReads(rs[n]);
      LinesNext(PrintMaps(rs[..n]), RegionLine(rs[n]));
      CollectMapsNext(TextLines(PrintMaps(rs[..n])), WithoutReturn(RegionLine(rs[n])));
    }
  }

  /** What the kernel prints for any regions is read back as the mappings that
      have a start and a real path, sorted by start; the only loss is that a
      path ends at its first white space. */
  lemma {:induction false} MapsRoundTrip(rs: seq<Region>)
    requires forall i | 0 <= i < |rs| :: Printable(rs[i])
    ensures StablySorted(ParseMaps(PrintMaps(rs)), ExpectedMaps(rs), StartOf)
  {
    MapLinesRead(rs);
    StableSortSorts(ExpectedMaps(rs), StartOf);
  }

  // ----- /proc/kallsyms -----

  function ParseSymbolLine(line: string): Option<Sym> {
    var parts := Split(line, ' ');
    if |parts| < 3 || parts[2] == "" then None
    else
      match ParseHex64(parts[0])
      case None => None
      case Some(addr) => Some(Sym(addr, parts[2]))
  }

  function CollectSymbols(lines: seq<string>): seq<Sym> {
    if lines == [] then []
    else
      var rest := CollectSymbols(lines[..|lines| - 1]);
      match ParseSymbolLine(lines[|lines| - 1])
      case None => rest
      case Some(s) => rest + [s]
  }

  function ParseKallsyms(text: string): seq<Sym> {
    StableSort(CollectSymbols(TextLines(text)), AddrOf)
  }

  /** A kernel symbol with its type letter and the module it belongs to, if any. */
  datatype KernelSym = KernelSym(addr: u64, kind: char, name: string, owner: Option<string>)

  predicate PrintableSym(k: KernelSym) {
    && !White(k.kind) && Word(k.name)
    && (k.owner.Some? ==> NoWhite(k.owner.value))
  }

  /** The name as read: a module stays attached behind a tab. */
  function ReadName(k: KernelSym): string {
    if k.owner.Some? then k.name + "\t[" + k.owner.value + "]" else k.name
  }

  function SymbolColumns(addr: string, kind: char, name: string): string {
    addr + " " + [kind] + " " + name
  }

  function SymbolLine(k: KernelSym): string {
    SymbolColumns(Padded(Hex(k.addr), 16), k.kind, ReadName(k))
  }

  function PrintKallsyms(ks: seq<KernelSym>): string {
    if ks == [] then "" else PrintKallsyms(ks[..|ks| - 1]) + SymbolLine(ks[|ks| - 1]) + "\n"
  }

  function ReadSyms(ks: seq<KernelSym>): seq<Sym> {
    if ks == [] then []
    else ReadSyms(ks[..|ks| - 1]) + [Sym(ks[|ks| - 1].addr, ReadName(ks[|ks| - 1]))]
  }

  lemma ReadNameIsOneWord(k: KernelSym)
    requires PrintableSym(k)
    ensures ReadName(k) != "" && ' ' !in ReadName(k) && '\n' !in ReadName(k)
    ensures ReadName(k)[|ReadName(k)| - 1] != '\r'
  {
    WordOneLine(k.name);
    if k.owner.Some? {
      WordOneLine(k.owner.value);
      assert ReadName(k)[|ReadName(k)| - 1] == ']';
    }
  }

  /** One line, from the text of its address. */
  lemma SymbolColumnsRead(addr: string, kind: char, name: string)
    requires Word(addr) && !White(kind) && name != "" && ' ' !in name && '\n' !in name && name[|name| - 1] != '\r'
    ensures Split(SymbolColumns(addr, kind, name), ' ') == [addr, [kind], name]
    ensures '\n' !in SymbolColumns(addr, kind, name)
    ensures WithoutReturn(SymbolColumns(addr, kind, name)) == SymbolColumns(addr, kind, name)
  {
    WordOneLine(addr);
    SplitAppend("", addr, ' ');
    assert "" + addr == addr;
    SplitNext(addr, [kind], ' ');
    SplitNext(addr + " " + [kind], name, ' ');
    assert SymbolColumns(addr, kind, name)[|SymbolColumns(addr, kind, name)| - 1] == name[|name| - 1];
  }

  lemma SymbolReads(k: KernelSym)
    requires PrintableSym(k)
    ensures '\n' !in SymbolLine(k)
    ensures ParseSymbolLine(WithoutReturn(SymbolLine(k))) == Some(Sym(k.addr, ReadName(k)))
  {
    var addr := Padded(Hex(k.addr), 16);
    HexRoundTrip(k.addr, 16);
    HexIsWord(addr);
    ReadNameIsOneWord(k);
    SymbolColumnsRead(addr, k.kind, ReadName(k));
  }

  lemma CollectSymbolsNext(lines: seq<string>, line: string)
    ensures CollectSymbols(lines + [line]) ==
            match ParseSymbolLine(line) case None => CollectSymbols(lines) case Some(s) => CollectSymbols(lines) + [s]
  {
    assert (lines + [line])[..|lines|] == lines;
  }

  lemma {:induction false} SymbolLinesRead(ks: seq<KernelSym>)
    requires forall i | 0 <= i < |ks| :: PrintableSym(ks[i])
    ensures var ps := Split(PrintKallsyms(ks), '\n'); ps[|ps| - 1] == ""
    ensures CollectSymbols(TextLines(PrintKallsyms(ks))) == ReadSyms(ks)
  {
    if ks != [] {
      var n := |ks| - 1;
      SymbolLinesRead(ks[..n]);
      SymbolReads(ks[n]);
      LinesNext(PrintKallsyms(ks[..n]), SymbolLine(ks[n]));
      CollectSymbolsNext(TextLines(PrintKallsyms(ks[..n])), WithoutReturn(SymbolLine(ks[n])));
    }
  }

  /** The kernel's symbol list is read back whole, sorted by address, with a
      module's name attached to each of its symbols. */
  lemma {:induction false} KallsymsRoundTrip(ks: seq<KernelSym>)
    requires forall i | 0 <= i < |ks| :: PrintableSym(ks[i])
    ensures StablySorted(ParseKallsyms(PrintKallsyms(ks)), ReadSyms(ks), AddrOf)
  {
    SymbolLinesRead(ks);
    StableSortSorts(ReadSyms(ks), AddrOf);
  }

  lemma {:induction false} CollectedNames(lines: seq<string>)
    ensures forall i | 0 <= i < |CollectSymbols(lines)| ::
              CollectSymbols(lines)[i].name != "" && ' ' !in CollectSymbols(lines)[i].name
  {
    if lines != [] {
      var line := lines[|lines| - 1];
      CollectedNames(lines[..|lines| - 1]);
      SplitWithout(line, ' ');
    }
  }

  /** No kernel symbol is read with a blank in its name, whatever the text is. */
  lemma KernelNamesHaveNoBlank(text: string, s: Sym)
    requires s in ParseKallsyms(text)
    ensures s.name != "" && ' ' !in s.name
  {
    var read := CollectSymbols(TextLines(text));
    SortedMembers(read, AddrOf, s);
    CollectedNames(TextLines(text));
  }

  /** Whatever the two texts are, the parsed lists ascend. */
  lemma ParsedAscends(maps: string, kallsyms: string)
    ensures Ascending(Keys(ParseMaps(maps), StartOf)) && Sorted(ParseKallsyms(kallsyms))
  {
    StableSortSorts(CollectMaps(TextLines(maps)), StartOf);
    StableSortSorts(CollectSymbols(TextLines(kallsyms)), AddrOf);
  }
}
