/** Text in pieces: joining and splitting at a character, and the folded-stack
    lines that a flame graph is drawn from. */
module FoldedText {
  import opened Words
  import opened Numerals

  function Join(pieces: seq<string>, c: char): string {
    if pieces == [] then ""
    else if |pieces| == 1 then pieces[0]
    else Join(pieces[..|pieces| - 1], c) + [c] + pieces[|pieces| - 1]
  }

  function Split(s: string, c: char): (pieces: seq<string>)
    ensures pieces != []
  {
    if s == "" then [""] else Extended(Split(s[..|s| - 1], c), s[|s| - 1], c)
  }

  /** The pieces after one more character. */
  function Extended(before: seq<string>, last: char, c: char): (pieces: seq<string>)
    requires before != []
    ensures pieces != []
  {
    if last == c then before + [""] else before[..|before| - 1] + [before[|before| - 1] + [last]]
  }

  predicate Without(pieces: seq<string>, c: char) {
    forall i | 0 <= i < |pieces| :: c !in pieces[i]
  }

  lemma {:induction false} SplitWithout(s: string, c: char)
    ensures Without(Split(s, c), c)
  {
    if s != "" {
      SplitWithout(s[..|s| - 1], c);
    }
  }

  lemma ExtendedLast(front: seq<string>, last: string, t: string, c: char)
    requires t != "" && t[|t| - 1] != c
    ensures Extended(front + [last + t[..|t| - 1]], t[|t| - 1], c) == front + [last + t]
  {
    var n := |t| - 1;
    assert (front + [last + t[..n]])[..|front|] == front;
    assert last + t[..n] + [t[n]] == last + t;
  }

  /** Text without the separator lengthens the last piece. */
  lemma {:induction false} SplitAppend(s: string, t: string, c: char)
    requires c !in t
    ensures var r := Split(s, c); Split(s + t, c) == r[..|r| - 1] + [r[|r| - 1] + t]
  {
    var r := Split(s, c);
    if t == "" {
      assert s + t == s;
      assert r[|r| - 1] + t == r[|r| - 1];
    } else {
      var n := |t| - 1;
      SplitAppend(s, t[..n], c);
      assert (s + t)[..|s + t| - 1] == s + t[..n] && (s + t)[|s + t| - 1] == t[n];
      ExtendedLast(r[..|r| - 1], r[|r| - 1], t, c);
    }
  }

  lemma SplitNext(s: string, t: string, c: char)
    requires c !in t
    ensures Split(s + [c] + t, c) == Split(s, c) + [t]
  {
    assert (s + [c])[..|s|] == s;
    SplitAppend(s + [c], t, c);
    assert "" + t == t;
  }

  lemma SplitOne(piece: string, c: char)
    requires c !in piece
    ensures Split(piece, c) == [piece]
  {
    SplitAppend("", piece, c);
    assert "" + piece == piece;
  }

  lemma JoinNext(front: seq<string>, last: string, c: char)
    requires front != []
    ensures Join(front + [last], c) == Join(front, c) + [c] + last
  {
    assert (front + [last])[..|front|] == front;
  }

  lemma {:induction false} SplitOfJoin(pieces: seq<string>, c: char)
    requires pieces != [] && Without(pieces, c)
    ensures Split(Join(pieces, c), c) == pieces
  {
    var front, last := pieces[..|pieces| - 1], pieces[|pieces| - 1];
    if front == [] {
      SplitOne(last, c);
    } else {
      assert pieces == front + [last];
      SplitOfJoin(front, c);
      JoinNext(front, last, c);
      SplitNext(Join(front, c), last, c);
    }
  }

  lemma SplitGrow(s: string, last: char, c: char)
    ensures Split(s + [last], c) == Extended(Split(s, c), last, c)
  {
    assert (s + [last])[..|s|] == s;
  }

  lemma ExtendedBehind(a: seq<string>, b: seq<string>, last: char, c: char)
    requires b != []
    ensures Extended(a + b, last, c) == a + Extended(b, last, c)
  {
    assert (a + b)[..|a + b| - 1] == a + b[..|b| - 1];
  }

  /** A separator in the text separates its pieces. */
  lemma {:induction false} SplitBoth(s: string, t: string, c: char)
    ensures Split(s + [c] + t, c) == Split(s, c) + Split(t, c)
  {
    if t == "" {
      SplitNext(s, "", c);
    } else {
      var front, last := t[..|t| - 1], t[|t| - 1];
      SplitBoth(s, front, c);
      assert t == front + [last] && s + [c] + t == s + [c] + front + [last];
      SplitGrow(s + [c] + front, last, c);
      SplitGrow(front, last, c);
      ExtendedBehind(Split(s, c), Split(front, c), last, c);
    }
  }

  /** The pieces, each cut at its separators. */
  function Cut(pieces: seq<string>, c: char): seq<string> {
    if pieces == [] then [] else Cut(pieces[..|pieces| - 1], c) + Split(pieces[|pieces| - 1], c)
  }

  /** Splitting what was joined gives the pieces cut at their separators. */
  lemma {:induction false} SplitOfJoinIsCut(pieces: seq<string>, c: char)
    requires pieces != []
    ensures Split(Join(pieces, c), c) == Cut(pieces, c)
  {
    var front, last := pieces[..|pieces| - 1], pieces[|pieces| - 1];
    if front == [] {
      assert Cut(front, c) == [];
    } else {
      assert pieces == front + [last];
      SplitOfJoinIsCut(front, c);
      JoinNext(front, last, c);
      SplitBoth(Join(front, c), last, c);
    }
  }

  lemma {:induction false} CutWithout(pieces: seq<string>, c: char)
    requires Without(pieces, c)
    ensures Cut(pieces, c) == pieces
  {
    if pieces != [] {
      WithoutFront(pieces, c);
      CutWithout(pieces[..|pieces| - 1], c);
      SplitOne(pieces[|pieces| - 1], c);
    }
  }

  lemma WithoutFront(pieces: seq<string>, c: char)
    requires Without(pieces, c) && pieces != []
    ensures Without(pieces[..|pieces| - 1], c) && c !in pieces[|pieces| - 1]
    ensures pieces == pieces[..|pieces| - 1] + [pieces[|pieces| - 1]]
  {
  }

  /** Two lists join to the same text if and only if they agree once every piece
      is cut at its separators. */
  lemma JoinsAgreeExact(a: seq<string>, b: seq<string>, c: char)
    requires a != [] && b != []
    ensures Join(a, c) == Join(b, c) <==> Cut(a, c) == Cut(b, c)
  {
    SplitOfJoinIsCut(a, c);
    SplitOfJoinIsCut(b, c);
    JoinSplit(Join(a, c), c);
    JoinSplit(Join(b, c), c);
  }

  /** Joining undoes splitting, always. */
  lemma {:induction false} JoinSplit(s: string, c: char)
    ensures Join(Split(s, c), c) == s
  {
    if s != "" {
      var n := |s| - 1;
      var before := Split(s[..n], c);
      var front, last := before[..|before| - 1], before[|before| - 1];
      JoinSplit(s[..n], c);
      assert before == front + [last] && s == s[..n] + [s[n]];
      if s[n] == c {
        JoinNext(before, "", c);
        assert Join(before, c) + [c] + "" == s;
      } else if front == [] {
        assert Split(s, c) == [last + [s[n]]];
      } else {
        JoinNext(front, last, c);
        JoinNext(front, last + [s[n]], c);
        assert Split(s, c) == front + [last + [s[n]]];
        assert Join(front, c) + [c] + (last + [s[n]]) == Join(front, c) + [c] + last + [s[n]];
      }
    }
  }

  /** Splitting undoes joining exactly when no piece has the separator in it. */
  lemma JoinExact(pieces: seq<string>, c: char)
    requires pieces != []
    ensures Split(Join(pieces, c), c) == pieces <==> Without(pieces, c)
  {
    SplitWithout(Join(pieces, c), c);
    if Without(pieces, c) {
      SplitOfJoin(pieces, c);
    }
  }

  // ----- Folded lines -----

  datatype Entry = Entry(stack: string, count: nat)

  function Line(e: Entry): string {
    e.stack + " " + Decimal(e.count)
  }

  /** One line per entry, in the order given. */
  function Print(es: seq<Entry>): string {
    if es == [] then "" else Print(es[..|es| - 1]) + Line(es[|es| - 1]) + "\n"
  }

  function WithoutReturn(line: string): string {
    if line != "" && line[|line| - 1] == '\r' then line[..|line| - 1] else line
  }

  function Ended(lines: seq<string>): seq<string> {
    seq(|lines|, i requires 0 <= i < |lines| => WithoutReturn(lines[i]))
  }

  /** `str::lines`: a line end may carry a carriage return. */
  function TextLines(text: string): seq<string> {
    var ps := Split(text, '\n');
    var n := |ps| - 1;
    if ps[n] == "" then Ended(ps[..n]) else Ended(ps[..n]) + [ps[n]]
  }

  function LastSpace(s: string): (r: Option<nat>)
    ensures match r
            case Some(i) => i < |s| && s[i] == ' ' && ' ' !in s[i + 1..]
            case None => ' ' !in s
  {
    if s == "" then None
    else if s[|s| - 1] == ' ' then Some(|s| - 1)
    else LastSpace(s[..|s| - 1])
  }

  /** A stack and a count, split at the last space. */
  function ParseLine(s: string): Option<Entry> {
    match LastSpace(s)
    case None => None
    case Some(i) =>
      if i + 1 < |s| && AllDigits(s[i + 1..]) then Some(Entry(s[..i], Value(s[i + 1..]))) else None
  }

  function ParseLines(ls: seq<string>): Option<seq<Entry>> {
    if ls == [] then Some([])
    else
      match (ParseLines(ls[..|ls| - 1]), ParseLine(ls[|ls| - 1]))
      case (Some(es), Some(e)) => Some(es + [e])
      case _ => None
  }

  function Parse(text: string): Option<seq<Entry>> {
    ParseLines(TextLines(text))
  }

  lemma {:induction false} LastSpaceOf(s: string, t: string)
    requires ' ' !in t
    ensures LastSpace(s + " " + t) == Some(|s|)
  {
    var u := s + " " + t;
    if t == "" {
      assert u == s + " ";
    } else {
      var n := |t| - 1;
      assert u[..|u| - 1] == s + " " + t[..n];
      assert u[|u| - 1] == t[n];
      LastSpaceOf(s, t[..n]);
    }
  }

  /** The count is read back although the stack may hold spaces. */
  lemma LineRoundTrip(e: Entry)
    ensures ParseLine(Line(e)) == Some(e)
  {
    var s, i, digits := Line(e), |e.stack|, Decimal(e.count);
    assert ' ' !in digits;
    LastSpaceOf(e.stack, digits);
    ValueOfDecimal(e.count);
    assert s[i + 1..] == digits && s[..i] == e.stack;
  }

  lemma SplitWholeLine(before: string, line: string)
    requires '\n' !in line
    requires var r := Split(before, '\n'); r[|r| - 1] == ""
    ensures var r := Split(before, '\n'); Split(before + line + "\n", '\n') == r[..|r| - 1] + [line, ""]
  {
    SplitAppend(before, line, '\n');
    assert "" + line == line;
    assert (before + line + "\n")[..|before + line|] == before + line;
  }

  lemma {:induction false} SplitOfPrint(es: seq<Entry>)
    requires forall i | 0 <= i < |es| :: '\n' !in es[i].stack
    ensures |Split(Print(es), '\n')| == |es| + 1
    ensures Split(Print(es), '\n')[|es|] == ""
    ensures forall i | 0 <= i < |es| :: Split(Print(es), '\n')[i] == Line(es[i])
  {
    if es != [] {
      var n := |es| - 1;
      SplitOfPrint(es[..n]);
      assert '\n' !in Decimal(es[n].count);
      SplitWholeLine(Print(es[..n]), Line(es[n]));
    }
  }

  lemma {:induction false} ParseOfLines(es: seq<Entry>, ls: seq<string>)
    requires |ls| == |es| && forall i | 0 <= i < |es| :: ls[i] == Line(es[i])
    ensures ParseLines(ls) == Some(es)
  {
    if es != [] {
      var n := |es| - 1;
      ParseOfLines(es[..n], ls[..n]);
      LineRoundTrip(es[n]);
      assert es[..n] + [es[n]] == es;
    }
  }

  lemma {:induction false} ParsedStacks(ls: seq<string>)
    requires Without(ls, '\n') && ParseLines(ls).Some?
    ensures var es := ParseLines(ls).value; forall i | 0 <= i < |es| :: '\n' !in es[i].stack
  {
    if ls != [] {
      var n := |ls| - 1;
      ParsedStacks(ls[..n]);
      assert '\n' !in ls[n];
    }
  }

  /** Reading the printed lines gives the printed entries back, in their order,
      exactly when no stack has a line end in it. */
  lemma {:induction false} PrintExact(es: seq<Entry>)
    ensures Parse(Print(es)) == Some(es) <==> forall i | 0 <= i < |es| :: '\n' !in es[i].stack
  {
    if Parse(Print(es)) == Some(es) {
      ParsedHasNoLineEnd(Print(es));
    }
    if forall i | 0 <= i < |es| :: '\n' !in es[i].stack {
      PrintedIsParsed(es);
    }
  }

  lemma ParsedHasNoLineEnd(text: string)
    requires Parse(text).Some?
    ensures var es := Parse(text).value; forall i | 0 <= i < |es| :: '\n' !in es[i].stack
  {
    SplitWithout(text, '\n');
    ParsedStacks(TextLines(text));
  }

  lemma PrintedIsParsed(es: seq<Entry>)
    requires forall i | 0 <= i < |es| :: '\n' !in es[i].stack
    ensures Parse(Print(es)) == Some(es)
  {
    SplitOfPrint(es);
    ParseOfLines(es, TextLines(Print(es)));
  }

  // ----- A map of counts -----

  /** Some order of iteration over the map: every key, once. */
  ghost predicate Enumerates(order: seq<string>, m: map<string, nat>) {
    && (forall i, j | 0 <= i < j < |order| :: order[i] != order[j])
    && (forall i | 0 <= i < |order| :: order[i] in m)
    && (forall k | k in m :: k in order)
  }

  function EntriesOf(order: seq<string>, m: map<string, nat>): (es: seq<Entry>)
    requires forall i | 0 <= i < |order| :: order[i] in m
    ensures |es| == |order| && forall i | 0 <= i < |es| :: es[i] == Entry(order[i], m[order[i]])
  {
    seq(|order|, i requires 0 <= i < |order| => Entry(order[i], m[order[i]]))
  }

  function MapOf(es: seq<Entry>): map<string, nat> {
    if es == [] then map[] else MapOf(es[..|es| - 1])[es[|es| - 1].stack := es[|es| - 1].count]
  }

  lemma {:induction false} MapOfEntries(es: seq<Entry>, m: map<string, nat>)
    requires forall i | 0 <= i < |es| :: es[i].stack in m && es[i].count == m[es[i].stack]
    ensures forall k :: k in MapOf(es) <==> exists i :: 0 <= i < |es| && es[i].stack == k
    ensures forall k | k in MapOf(es) :: k in m && MapOf(es)[k] == m[k]
  {
    if es != [] {
      var n := |es| - 1;
      MapOfEntries(es[..n], m);
      forall k ensures k in MapOf(es) <==> exists i :: 0 <= i < |es| && es[i].stack == k {
        if k in MapOf(es[..n]) {
          var i :| 0 <= i < n && es[..n][i].stack == k;
          assert es[i].stack == k;
        }
        if i :| 0 <= i < |es| && es[i].stack == k {
          if i < n { assert es[..n][i].stack == k; }
        }
      }
    }
  }

  lemma EntriesDetermineMap(order: seq<string>, m: map<string, nat>)
    requires Enumerates(order, m)
    ensures MapOf(EntriesOf(order, m)) == m
  {
    var es := EntriesOf(order, m);
    MapOfEntries(es, m);
    forall k | k in m ensures k in MapOf(es) {
      var i :| 0 <= i < |order| && order[i] == k;
      assert es[i].stack == k;
    }
  }

  /** In whatever order the map is iterated, reading its lines recovers the map,
      if and only if no stack has a line end in it. */
  lemma FoldedTextExact(order: seq<string>, m: map<string, nat>)
    requires Enumerates(order, m)
    ensures (Parse(Print(EntriesOf(order, m))) == Some(EntriesOf(order, m))) <==> forall k | k in m :: '\n' !in k
    ensures MapOf(EntriesOf(order, m)) == m
  {
    var es := EntriesOf(order, m);
    PrintExact(es);
    EntriesDetermineMap(order, m);
    assert forall i | 0 <= i < |es| :: es[i].stack == order[i] && order[i] in m;
    forall k | k in m ensures exists i :: 0 <= i < |es| && es[i].stack == k {
      var i :| 0 <= i < |order| && order[i] == k;
      assert es[i].stack == k;
    }
  }
}
