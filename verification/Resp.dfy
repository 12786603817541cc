/** Command extraction from captured request bytes (aya-test/src/resp.rs). */
module Resp {
  import opened Words
  import opened Numerals

  // ----- ASCII letters -----

  predicate IsAlpha(c: char) {
    'a' <= c <= 'z' || 'A' <= c <= 'Z'
  }

  predicate AllAlpha(s: seq<byte>) {
    forall i | 0 <= i < |s| :: IsAlpha(s[i])
  }

  function ToUpper(c: byte): byte {
    if 'a' <= c <= 'z' then (c as int - 32) as char else c
  }

  function Upper(s: seq<byte>): (r: seq<byte>)
    ensures |r| == |s| && forall i | 0 <= i < |s| :: r[i] == ToUpper(s[i])
    ensures Capitals(s, r)
  {
    seq(|s|, i requires 0 <= i < |s| => ToUpper(s[i]))
  }

  /** A capital and the small letter 32 above it. */
  predicate Twins(x: char, y: char) {
    'A' <= x <= 'Z' && y as int == x as int + 32
  }

  /** `r` has no small letter, and differs from `s` only in capitals for their twins. */
  ghost predicate Capitals(s: seq<byte>, r: seq<byte>) {
    |r| == |s| && forall i | 0 <= i < |s| :: !('a' <= r[i] <= 'z') && (r[i] == s[i] || Twins(r[i], s[i]))
  }

  lemma CapitalsUnique(s: seq<byte>, r: seq<byte>, r': seq<byte>)
    requires Capitals(s, r) && Capitals(s, r')
    ensures r == r'
  {
  }

  /** Two strings that differ at most in the case of letters. */
  predicate SameButCase(s: seq<byte>, t: seq<byte>) {
    |s| == |t| && forall i | 0 <= i < |s| :: s[i] == t[i] || Twins(s[i], t[i]) || Twins(t[i], s[i])
  }

  // ----- The scanner as a recursion over start positions -----

  /** First index from `start` on that holds no digit, or the end of the data. */
  function DigitEnd(data: seq<byte>, start: nat): (j: nat)
    requires start <= |data|
    ensures start <= j <= |data|
    ensures AllDigits(data[start..j])
    ensures j < |data| ==> !IsDigit(data[j])
    decreases |data| - start
  {
    if start < |data| && IsDigit(data[start]) then DigitEnd(data, start + 1) else start
  }

  /** What one `$` position does to the scan: move on, give up, or answer. */
  datatype Outcome = Skip | Abort | Pick(payload: seq<byte>)

  function Judge(data: seq<byte>, i: nat): Outcome
    requires i < |data|
  {
    if data[i] != '$' then Skip
    else
      var j := DigitEnd(data, i + 1);
      if !(j > i + 1 && j + 1 < |data| && data[j] == '\r' && data[j + 1] == '\n') then Skip
      else
        match ParseU64(data[i + 1..j])
        case None => Abort
        case Some(len) => JudgePayload(data, j + 2, len)
  }

  function JudgePayload(data: seq<byte>, cmdStart: nat, len: u64): Outcome
    requires cmdStart <= |data|
  {
    var cmdEnd := Min(WrappingAdd(cmdStart, len), |data|);
    if cmdEnd > cmdStart && AllAlpha(data[cmdStart..cmdEnd]) then Pick(data[cmdStart..cmdEnd]) else Skip
  }

  function ScanFrom(data: seq<byte>, i: nat): Option<seq<byte>>
    requires i <= |data|
    decreases |data| - i
  {
    if i == |data| then None
    else
      match Judge(data, i)
      case Skip => ScanFrom(data, i + 1)
      case Abort => None
      case Pick(p) => Some(Upper(p))
  }

  function Scan(data: seq<byte>): Option<seq<byte>> {
    ScanFrom(data, 0)
  }

  // ----- What the scanner is meant to find, stated over positions -----

  /** `$`, a non-empty digit run up to `j`, then CR LF. */
  ghost predicate Header(data: seq<byte>, i: int, j: int) {
    && 0 <= i && i + 1 < j && j + 1 < |data|
    && data[i] == '$' && AllDigits(data[i + 1..j])
    && data[j] == '\r' && data[j + 1] == '\n'
  }

  ghost function Declared(data: seq<byte>, i: int, j: int): nat
    requires Header(data, i, j)
  {
    Value(data[i + 1..j])
  }

  /** The bytes after the header, as many as declared, clipped to the data. */
  ghost function Payload(data: seq<byte>, i: int, j: int): seq<byte>
    requires Header(data, i, j)
  {
    data[j + 2..Min(j + 2 + Declared(data, i, j), |data|)]
  }

  /** A header whose clipped payload is a non-empty word of letters and whose
      end position fits in 64 bits. */
  ghost predicate Acceptable(data: seq<byte>, i: int, j: int) {
    && Header(data, i, j)
    && j + 2 + Declared(data, i, j) < TWO64
    && Payload(data, i, j) != [] && AllAlpha(Payload(data, i, j))
  }

  /** A header whose numeral exceeds 2^64-1. */
  ghost predicate TooBig(data: seq<byte>, i: int, j: int) {
    Header(data, i, j) && Declared(data, i, j) >= TWO64
  }

  ghost predicate AcceptableAt(data: seq<byte>, i: int) {
    exists j :: Acceptable(data, i, j)
  }

  ghost predicate TooBigAt(data: seq<byte>, i: int) {
    exists j :: TooBig(data, i, j)
  }

  /** The answer `r` is right for `data`: the leftmost acceptable payload in
      upper case, unless an oversized numeral comes first. */
  ghost predicate ScanSpec(data: seq<byte>, r: Option<seq<byte>>) {
    match r
    case Some(cmd) =>
      exists i, j ::
        && Acceptable(data, i, j) && Capitals(Payload(data, i, j), cmd)
        && forall k | 0 <= k < i :: !AcceptableAt(data, k) && !TooBigAt(data, k)
    case None =>
      || (forall k | 0 <= k < |data| :: !AcceptableAt(data, k))
      || exists i :: TooBigAt(data, i) && forall k | 0 <= k < i :: !AcceptableAt(data, k)
  }

  lemma DigitsInside(data: seq<byte>, i: nat, j: nat)
    requires i <= j <= |data| && AllDigits(data[i..j])
    ensures forall x | i <= x < j :: IsDigit(data[x])
  {
    forall x | i <= x < j
      ensures IsDigit(data[x])
    {
      assert data[x] == data[i..j][x - i];
    }
  }

  /** A header starting at `i` can end in one place only. */
  lemma HeaderEnd(data: seq<byte>, i: int, j: int)
    requires Header(data, i, j)
    ensures j == DigitEnd(data, i + 1)
  {
    var e := DigitEnd(data, i + 1);
    DigitsInside(data, i + 1, j);
    DigitsInside(data, i + 1, e);
  }

  /** One step of the scan against the positional reading. A declared end that
      wraps past 2^64 is never acceptable and is always skipped. */
  lemma JudgeMeaning(data: seq<byte>, i: nat)
    requires i < |data|
    ensures Judge(data, i).Pick? <==> AcceptableAt(data, i)
    ensures Judge(data, i).Abort? <==> TooBigAt(data, i)
    ensures forall j :: Acceptable(data, i, j) ==> Judge(data, i) == Pick(Payload(data, i, j))
    ensures forall j | Header(data, i, j) && Declared(data, i, j) < TWO64 <= j + 2 + Declared(data, i, j) ::
              Judge(data, i) == Skip
  {
    var e := DigitEnd(data, i + 1);
    forall j | Header(data, i, j)
      ensures j == e
    {
      HeaderEnd(data, i, j);
    }
    if Header(data, i, e) {
      JudgeHeader(data, i, e);
    }
  }

  lemma JudgeHeader(data: seq<byte>, i: nat, j: nat)
    requires Header(data, i, j) && j == DigitEnd(data, i + 1)
    ensures Judge(data, i) == if TooBig(data, i, j) then Abort
                              else if Acceptable(data, i, j) then Pick(Payload(data, i, j)) else Skip
  {
    ParseU64IsValue(data[i + 1..j]);
    var n := Declared(data, i, j);
    if n < TWO64 {
      assert WrappingAdd(j + 2, n) > j + 2 ==> j + 2 + n < TWO64;
    }
  }

  lemma {:induction false} ScanFromSpec(data: seq<byte>, i: nat)
    requires i <= |data|
    requires forall k | 0 <= k < i :: !AcceptableAt(data, k) && !TooBigAt(data, k)
    ensures ScanSpec(data, ScanFrom(data, i))
    decreases |data| - i
  {
    if i < |data| {
      JudgeMeaning(data, i);
      if Judge(data, i) == Skip {
        ScanFromSpec(data, i + 1);
      } else if Judge(data, i).Pick? {
        var j :| Acceptable(data, i, j);
        assert ScanFrom(data, i) == Some(Upper(Payload(data, i, j)));
      }
    }
  }

  lemma AcceptableUnique(data: seq<byte>, i: int, j: int, j': int)
    requires Header(data, i, j) && Header(data, i, j')
    ensures j == j'
  {
    HeaderEnd(data, i, j);
    HeaderEnd(data, i, j');
  }

  /** Acceptable and oversized exclude each other at one position. */
  lemma NotBoth(data: seq<byte>, i: int)
    requires AcceptableAt(data, i)
    ensures !TooBigAt(data, i) && 0 <= i < |data|
  {
    var j :| Acceptable(data, i, j);
    forall j' | TooBig(data, i, j')
      ensures false
    {
      AcceptableUnique(data, i, j, j');
    }
  }

  /** The positional reading admits one answer only. */
  lemma ScanSpecFunctional(data: seq<byte>, r: Option<seq<byte>>, r': Option<seq<byte>>)
    requires ScanSpec(data, r) && ScanSpec(data, r')
    ensures r == r'
  {
    if r.Some? && r'.Some? {
      var i, j :| Acceptable(data, i, j) && Capitals(Payload(data, i, j), r.value)
        && forall k | 0 <= k < i :: !AcceptableAt(data, k) && !TooBigAt(data, k);
      var i', j' :| Acceptable(data, i', j') && Capitals(Payload(data, i', j'), r'.value)
        && forall k | 0 <= k < i' :: !AcceptableAt(data, k) && !TooBigAt(data, k);
      assert AcceptableAt(data, i) && AcceptableAt(data, i');
      assert i == i';
      AcceptableUnique(data, i, j, j');
      CapitalsUnique(Payload(data, i, j), r.value, r'.value);
    } else if r.Some? {
      SomeExcludesNone(data, r.value);
    } else if r'.Some? {
      SomeExcludesNone(data, r'.value);
    }
  }

  lemma SomeExcludesNone(data: seq<byte>, cmd: seq<byte>)
    requires ScanSpec(data, Some(cmd))
    ensures !ScanSpec(data, None)
  {
    var i, j :| Acceptable(data, i, j) && Capitals(Payload(data, i, j), cmd)
      && forall k | 0 <= k < i :: !AcceptableAt(data, k) && !TooBigAt(data, k);
    assert AcceptableAt(data, i);
    NotBoth(data, i);
  }

  /** Exact specification: an answer is the scanner's answer if and only if it
      is right in the positional reading. */
  lemma ScanExact(data: seq<byte>, r: Option<seq<byte>>)
    ensures r == Scan(data) <==> ScanSpec(data, r)
  {
    ScanFromSpec(data, 0);
    if ScanSpec(data, r) {
      ScanSpecFunctional(data, r, Scan(data));
    }
  }

  /** An answer is a non-empty word of capitals. */
  lemma AnswerIsCapitals(data: seq<byte>)
    requires Scan(data).Some?
    ensures Scan(data).value != [] && forall c | c in Scan(data).value :: 'A' <= c <= 'Z'
  {
    var cmd := Scan(data).value;
    ScanExact(data, Some(cmd));
    var i, j :| Acceptable(data, i, j) && Capitals(Payload(data, i, j), cmd);
    forall k | 0 <= k < |cmd| ensures 'A' <= cmd[k] <= 'Z' {
      assert IsAlpha(Payload(data, i, j)[k]);
    }
  }

  // ----- The loop as written -----

  /** Where the returned text lives: in the static table or in a fresh string. */
  datatype Cow = Borrowed(text: seq<byte>) | Owned(text: seq<byte>)

  const KNOWN3: set<seq<byte>> := {"GET", "SET", "DEL"}
  const KNOWN4: set<seq<byte>> :=
    {"INCR", "DECR", "HGET", "HSET", "PING", "INFO", "MGET", "MSET", "KEYS",
     "TYPE", "SCAN", "QUIT", "AUTH", "ECHO", "EXEC", "MULT", "LPOP", "RPOP",
     "LLEN", "XADD", "ZADD", "HDEL", "HLEN", "SADD", "SPOP"}
  const KNOWN5: set<seq<byte>> := {"LPUSH", "RPUSH", "SETNX", "SETEX", "WATCH", "XREAD"}
  const KNOWN6: set<seq<byte>> :=
    {"PUBLISH", "SELECT", "RENAME", "EXPIRE", "APPEND", "STRLEN", "UNLINK", "GETSET"}
  const KNOWN7: set<seq<byte>> := {"GETRANGE"}

  predicate Known(bytes: seq<byte>) {
    bytes in KNOWN3 || bytes in KNOWN4 || bytes in KNOWN5 || bytes in KNOWN6 || bytes in KNOWN7
  }

  function TryStatic(bytes: seq<byte>): Option<seq<byte>> {
    if Known(bytes) then Some(bytes) else None
  }

  /** Table entries are already in upper case, so answering from the table
      gives the text that upper-casing would have given. */
  lemma TableIsUpper(bytes: seq<byte>)
    requires Known(bytes)
    ensures Upper(bytes) == bytes
  {
  }

  method MakeAsciiUppercase(v: array<byte>)
    modifies v
    ensures v[..] == Upper(old(v[..])) && Capitals(old(v[..]), v[..])
  {
    for k := 0 to v.Length
      invariant forall i | 0 <= i < k :: v[i] == ToUpper(old(v[i]))
      invariant forall i | k <= i < v.Length :: v[i] == old(v[i])
    {
      v[k] := ToUpper(v[k]);
    }
  }

  /** The text of an accepted payload: from the table if it is there, and
      otherwise a fresh copy in upper case. */
  method Render(bytes: seq<byte>) returns (r: Cow)
    ensures r.text == Upper(bytes) && Capitals(bytes, r.text)
    ensures r.Borrowed? <==> Known(bytes)
  {
    var s := TryStatic(bytes);
    if s.Some? {
      TableIsUpper(bytes);
      return Borrowed(s.value);
    }
    var v := new byte[|bytes|](k requires 0 <= k < |bytes| => bytes[k]);
    assert v[..] == bytes;
    MakeAsciiUppercase(v);
    return Owned(v[..]);
  }

  lemma ScanStep(data: seq<byte>, i: nat)
    requires i < |data|
    ensures ScanFrom(data, i) == match Judge(data, i)
                                 case Skip => ScanFrom(data, i + 1)
                                 case Abort => None
                                 case Pick(p) => Some(Upper(p))
  {
  }

  /** The scan loop with its early returns and its table fast path. The text
      returned is that of `Scan`, which has no table; the table decides only
      where the text is stored. */
  method ScanRespCommand(data: seq<byte>) returns (r: Option<Cow>)
    ensures r.None? <==> Scan(data).None?
    ensures r.Some? ==> Scan(data) == Some(r.value.text)
  {
    ghost var answer := Scan(data);
    for i := 0 to |data|
      invariant answer == ScanFrom(data, i)
    {
      ScanStep(data, i);
      if data[i] != '$' { continue; }
      var digitEnd := DigitEnd(data, i + 1);
      if digitEnd > i + 1 && digitEnd + 1 < |data| && data[digitEnd] == '\r' && data[digitEnd + 1] == '\n' {
        var len := ParseU64(data[i + 1..digitEnd]);
        if len.None? { return None; }
        var cmdStart := digitEnd + 2;
        var cmdEnd := Min(WrappingAdd(cmdStart, len.value), |data|);
        if cmdEnd > cmdStart {
          var bytes := data[cmdStart..cmdEnd];
          if !AllAlpha(bytes) { continue; }
          assert JudgePayload(data, cmdStart, len.value) == Pick(bytes);
          var text := Render(bytes);
          return Some(text);
        }
      }
    }
    return None;
  }

  // ----- Case insensitivity -----

  lemma SameNonLetter(x: byte, y: byte)
    requires x == y || Twins(x, y) || Twins(y, x)
    ensures ToUpper(x) == ToUpper(y)
    ensures IsAlpha(x) <==> IsAlpha(y)
    ensures !IsAlpha(x) ==> x == y
  {
  }

  lemma {:induction false} SameDigitEnd(d: seq<byte>, e: seq<byte>, start: nat)
    requires SameButCase(d, e) && start <= |d|
    ensures DigitEnd(d, start) == DigitEnd(e, start)
    ensures d[start..DigitEnd(d, start)] == e[start..DigitEnd(e, start)]
    decreases |d| - start
  {
    if start < |d| {
      SameNonLetter(d[start], e[start]);
      if IsDigit(d[start]) {
        SameDigitEnd(d, e, start + 1);
        var j := DigitEnd(d, start);
        assert d[start..j] == [d[start]] + d[start + 1..j];
        assert e[start..j] == [e[start]] + e[start + 1..j];
      }
    }
  }

  /** Same outcome, up to the case of the payload. */
  predicate SameOutcome(x: Outcome, y: Outcome) {
    match (x, y)
    case (Skip, Skip) => true
    case (Abort, Abort) => true
    case (Pick(p), Pick(q)) => Upper(p) == Upper(q)
    case _ => false
  }

  lemma SamePlainBytes(d: seq<byte>, e: seq<byte>, k: nat)
    requires SameButCase(d, e) && k < |d|
    ensures d[k] == '$' <==> e[k] == '$'
    ensures d[k] == '\r' <==> e[k] == '\r'
    ensures d[k] == '\n' <==> e[k] == '\n'
  {
    SameNonLetter(d[k], e[k]);
  }

  lemma SameJudge(d: seq<byte>, e: seq<byte>, i: nat)
    requires SameButCase(d, e) && i < |d|
    ensures SameOutcome(Judge(d, i), Judge(e, i))
  {
    SamePlainBytes(d, e, i);
    if d[i] == '$' {
      SameDigitEnd(d, e, i + 1);
      var j := DigitEnd(d, i + 1);
      if j > i + 1 && j + 1 < |d| {
        SamePlainBytes(d, e, j);
        SamePlainBytes(d, e, j + 1);
        var len := ParseU64(d[i + 1..j]);
        if len.Some? {
          SamePayload(d, e, j + 2, len.value);
        }
      }
    }
  }

  lemma SamePayload(d: seq<byte>, e: seq<byte>, start: nat, len: u64)
    requires SameButCase(d, e) && start <= |d|
    ensures SameOutcome(JudgePayload(d, start, len), JudgePayload(e, start, len))
  {
    var end := Min(WrappingAdd(start, len), |d|);
    if end > start {
      SameSlice(d, e, start, end);
      SameWord(d[start..end], e[start..end]);
    }
  }

  lemma SameSlice(d: seq<byte>, e: seq<byte>, i: nat, j: nat)
    requires SameButCase(d, e) && i <= j <= |d|
    ensures SameButCase(d[i..j], e[i..j])
  {
  }

  lemma SameWord(p: seq<byte>, q: seq<byte>)
    requires SameButCase(p, q)
    ensures Upper(p) == Upper(q) && (AllAlpha(p) <==> AllAlpha(q))
  {
    forall k | 0 <= k < |p|
      ensures ToUpper(p[k]) == ToUpper(q[k]) && (IsAlpha(p[k]) <==> IsAlpha(q[k]))
    {
      SameNonLetter(p[k], q[k]);
    }
  }

  lemma {:induction false} SameScanFrom(d: seq<byte>, e: seq<byte>, i: nat)
    requires SameButCase(d, e) && i <= |d|
    ensures ScanFrom(d, i) == ScanFrom(e, i)
    decreases |d| - i
  {
    if i < |d| {
      SameJudge(d, e, i);
      SameScanFrom(d, e, i + 1);
    }
  }

  /** Changing the case of any letters leaves the answer unchanged. */
  lemma CaseInsensitive(d: seq<byte>, e: seq<byte>)
    requires SameButCase(d, e)
    ensures Scan(d) == Scan(e)
  {
    SameScanFrom(d, e, 0);
  }

  // ----- Stability of the capture window -----

  /** The scan of `d` is answered at `i`, and the declared payload lies inside `d`. */
  ghost predicate AnsweredInside(d: seq<byte>, i: nat, j: nat) {
    && Acceptable(d, i, j)
    && j + 2 + Declared(d, i, j) <= |d|
    && forall k | 0 <= k < i :: !AcceptableAt(d, k) && !TooBigAt(d, k)
  }

  lemma HeaderExtends(d: seq<byte>, e: seq<byte>, i: nat, j: nat)
    requires Header(d, i, j)
    ensures Header(d + e, i, j) && Declared(d + e, i, j) == Declared(d, i, j)
  {
    assert (d + e)[i + 1..j] == d[i + 1..j];
  }

  /** A header of the longer window that starts before a `$` of the shorter
      window lies entirely before that `$`. */
  lemma HeaderBefore(d: seq<byte>, e: seq<byte>, k: nat, j: nat, i: nat)
    requires k < i < |d| && d[i] == '$'
    requires Header(d + e, k, j)
    ensures j + 1 < i && Header(d, k, j) && Declared(d, k, j) == Declared(d + e, k, j)
  {
    var w := d + e;
    DigitsInside(w, k + 1, j);
    assert w[i] == '$';
    assert w[k + 1..j] == d[k + 1..j];
  }

  /** A position rejected before the answer stays rejected in a longer window. */
  lemma RejectedStays(d: seq<byte>, e: seq<byte>, k: nat, i: nat)
    requires k < i < |d| && d[i] == '$'
    requires !AcceptableAt(d, k) && !TooBigAt(d, k)
    ensures !AcceptableAt(d + e, k) && !TooBigAt(d + e, k)
  {
    var w := d + e;
    forall j | TooBig(w, k, j)
      ensures TooBig(d, k, j)
    {
      HeaderBefore(d, e, k, j, i);
    }
    forall j | Acceptable(w, k, j)
      ensures Acceptable(d, k, j)
    {
      HeaderBefore(d, e, k, j, i);
      var p, q := Payload(d, k, j), Payload(w, k, j);
      assert |p| <= |q| && forall x | 0 <= x < |p| :: p[x] == q[x];
    }
  }

  /** If the answer's whole declared payload was captured, then capturing more
      bytes gives the same answer. */
  lemma PrefixStable(d: seq<byte>, e: seq<byte>, i: nat, j: nat)
    requires AnsweredInside(d, i, j)
    ensures Scan(d + e) == Scan(d) == Some(Upper(Payload(d, i, j)))
  {
    var w := d + e;
    HeaderExtends(d, e, i, j);
    assert Payload(w, i, j) == Payload(d, i, j);
    assert Acceptable(w, i, j);
    forall k: int | 0 <= k < i
      ensures !AcceptableAt(w, k) && !TooBigAt(w, k)
    {
      RejectedStays(d, e, k, i);
    }
    var r := Some(Upper(Payload(d, i, j)));
    assert ScanSpec(w, r) && ScanSpec(d, r);
    ScanExact(w, r);
    ScanExact(d, r);
  }

  // ----- classify_command -----

  const OTHER: seq<byte> := "OTHER"

  /** Index of the first NUL, or the length of the buffer. */
  function NulEnd(buf: seq<byte>): (end: nat)
    ensures end <= |buf|
    ensures forall i | 0 <= i < end :: buf[i] != '\0'
    ensures end < |buf| ==> buf[end] == '\0'
  {
    if buf == [] || buf[0] == '\0' then 0
    else
      var rest := NulEnd(buf[1..]);
      assert forall i | 0 < i < rest + 1 :: buf[i] == buf[1..][i - 1];
      assert rest + 1 < |buf| ==> buf[rest + 1] == buf[1..][rest];
      rest + 1
  }

  type Capture = b: seq<byte> | |b| == 32 witness seq(32, i => '\0')

  /** Classification of a capture. `decode` stands for the full RESP decoder
      that is consulted when the scan finds nothing, together with the Unicode
      upper-casing of what it decodes. */
  function Classify(reqData: Capture, decode: seq<byte> -> Option<seq<byte>>): seq<byte> {
    var data := reqData[..NulEnd(reqData)];
    if |data| < 4 then OTHER
    else
      match Scan(data)
      case Some(cmd) => cmd
      case None => match decode(data) case Some(c) => c case None => OTHER
  }

  method ClassifyCommand(reqData: Capture, decode: seq<byte> -> Option<seq<byte>>) returns (cmd: Cow)
    ensures cmd.text == Classify(reqData, decode)
    ensures var data := reqData[..NulEnd(reqData)];
            if |data| >= 4 && Scan(data).Some? then
              cmd.text == Scan(data).value != [] && forall c | c in cmd.text :: 'A' <= c <= 'Z'
            else
              cmd.text == if |data| >= 4 && decode(data).Some? then decode(data).value else "OTHER"
  {
    var data := reqData[..NulEnd(reqData)];
    if |data| < 4 {
      return Borrowed(OTHER);
    }
    var scanned := ScanRespCommand(data);
    if scanned.Some? {
      AnswerIsCapitals(data);
      return scanned.value;
    }
    var decoded := decode(data);
    if decoded.Some? {
      return Owned(decoded.value);
    }
    return Borrowed(OTHER);
  }
}
