/** RESP2 request encoding (Redis serialization protocol specification, the
    "Arrays" and "Bulk strings" sections) and its round trip through the
    classifier. */
module RespEncoder {
  import opened Words
  import opened Numerals
  import opened Resp

  const CRLF: seq<byte> := "\r\n"

  function Digits(n: nat): (s: seq<byte>)
    ensures s == Decimal(n)
  {
    var s := Decimal(n);
    assert forall i | 0 <= i < |s| :: IsDigit(s[i]);
    s
  }

  function BulkHeader(arg: seq<byte>): seq<byte> {
    "$" + Digits(|arg|) + CRLF
  }

  function Bulk(arg: seq<byte>): seq<byte> {
    BulkHeader(arg) + arg + CRLF
  }

  function Bulks(args: seq<seq<byte>>): seq<byte> {
    if args == [] then [] else Bulk(args[0]) + Bulks(args[1..])
  }

  function ArrayHeader(count: nat): seq<byte> {
    "*" + Digits(count) + CRLF
  }

  /** A request: an array of bulk strings whose first element is the command. */
  function Encode(args: seq<seq<byte>>): seq<byte> {
    ArrayHeader(|args|) + Bulks(args)
  }

  /** Everything that precedes the command's own bytes. */
  function Preamble(args: seq<seq<byte>>): seq<byte>
    requires args != []
  {
    ArrayHeader(|args|) + BulkHeader(args[0])
  }

  lemma EncodeShape(args: seq<seq<byte>>)
    requires args != []
    ensures Encode(args) == Preamble(args) + args[0] + (CRLF + Bulks(args[1..]))
  {
  }

  /** `h` is free of `$` up to `p` and ends in a header that declares `n` bytes. */
  ghost predicate Announces(h: seq<byte>, p: nat, n: nat) {
    && p <= |h| && (forall i | 0 <= i < p :: h[i] != '$')
    && Header(h, p, |h| - 2) && Declared(h, p, |h| - 2) == n
  }

  /** Text without `$` or NUL, then a bulk header with the digits `d`. */
  lemma HeaderBehind(front: seq<byte>, d: seq<byte>)
    requires '$' !in front && '\0' !in front && d != [] && AllDigits(d)
    ensures var h, p := front + ("$" + d + CRLF), |front|;
            && (forall i | 0 <= i < p :: h[i] != '$') && '\0' !in h
            && Header(h, p, |h| - 2) && h[p + 1..|h| - 2] == d
  {
    var h, p := front + ("$" + d + CRLF), |front|;
    assert h[p] == '$' && h[|h| - 2] == '\r' && h[|h| - 1] == '\n';
    assert h[p + 1..|h| - 2] == d;
    assert forall i | 0 <= i < |d| :: IsDigit(d[i]);
  }

  /** The array header holds no `$`, so nothing before the command's own header
      can be a candidate. */
  lemma PreambleAnnounces(args: seq<seq<byte>>, p: nat)
    requires args != [] && p == |ArrayHeader(|args|)|
    ensures Announces(Preamble(args), p, |args[0]|) && |Preamble(args)| >= 8 && '\0' !in Preamble(args)
  {
    var n := Digits(|args|);
    assert forall i | 0 <= i < |n| :: IsDigit(n[i]);
    assert '$' !in "*" + n + CRLF && '\0' !in "*" + n + CRLF;
    HeaderBehind(ArrayHeader(|args|), Digits(|args[0]|));
    ValueOfDecimal(|args[0]|);
  }

  lemma {:induction false} SkipTo(data: seq<byte>, i: nat, p: nat)
    requires i <= p <= |data|
    requires forall k | i <= k < p :: data[k] != '$'
    ensures ScanFrom(data, i) == ScanFrom(data, p)
    decreases p - i
  {
    if i < p {
      SkipTo(data, i + 1, p);
    }
  }

  /** The part of the command that a window of `room` bytes can show. */
  function Shown(cmd: seq<byte>, room: nat): seq<byte> {
    cmd[..Min(|cmd|, room)]
  }

  /** A header holds one `$` only, its first byte. */
  lemma HeaderTail(data: seq<byte>, p: nat, j: nat)
    requires Header(data, p, j)
    ensures forall i | p < i < j + 2 :: data[i] != '$'
  {
    DigitsInside(data, p + 1, j);
  }

  /** `data` starts with an announcing text and then shows the announced word. */
  ghost predicate Window(h: seq<byte>, p: nat, cmd: seq<byte>, data: seq<byte>) {
    && Announces(h, p, |cmd|) && cmd != [] && AllAlpha(cmd) && |h| < |data|
    && var k := Min(|data|, |h| + |cmd|); data[..k] == (h + cmd)[..k]
  }

  /** The window has the header at its place, with the shown word behind it. */
  lemma WindowShows(h: seq<byte>, p: nat, cmd: seq<byte>, data: seq<byte>)
    requires Window(h, p, cmd, data)
    ensures Header(data, p, |h| - 2) && Declared(data, p, |h| - 2) == |cmd|
    ensures forall i | 0 <= i < p :: data[i] != '$'
    ensures data[|h|..Min(|data|, |h| + |cmd|)] == Shown(cmd, |data| - |h|)
  {
    var k := Min(|data|, |h| + |cmd|);
    assert data[..|h|] == data[..k][..|h|] == h;
    assert data == h + data[|h|..];
    HeaderExtends(h, data[|h|..], p, |h| - 2);
    assert data[|h|..k] == data[..k][|h|..];
    assert (h + cmd)[..k][|h|..] == cmd[..k - |h|];
    assert k - |h| == Min(|cmd|, |data| - |h|);
  }

  lemma FitsIsFound(h: seq<byte>, p: nat, cmd: seq<byte>, data: seq<byte>)
    requires Window(h, p, cmd, data) && |h| + |cmd| < TWO64
    ensures Scan(data) == Some(Upper(Shown(cmd, |data| - |h|)))
  {
    WindowShows(h, p, cmd, data);
    var j := |h| - 2;
    assert Payload(data, p, j) == Shown(cmd, |data| - |h|);
    assert Acceptable(data, p, j);
    JudgeMeaning(data, p);
    SkipTo(data, 0, p);
  }

  lemma WrapsIsNotFound(h: seq<byte>, p: nat, cmd: seq<byte>, data: seq<byte>)
    requires Window(h, p, cmd, data) && |data| <= |h| + |cmd| && |h| + |cmd| >= TWO64
    ensures Scan(data) == None
  {
    WindowShows(h, p, cmd, data);
    assert forall i | |h| <= i < |data| :: data[i] == data[|h|..|data|][i - |h|];
    HeaderTail(data, p, |h| - 2);
    JudgeMeaning(data, p);
    SkipTo(data, 0, p);
    SkipTo(data, p + 1, |data|);
    assert TooBig(data, p, |h| - 2) || Judge(data, p) == Skip;
  }

  /** The word was found: the answer is the word in capitals. */
  ghost predicate Finds(r: Option<seq<byte>>, word: seq<byte>) {
    r.Some? && Capitals(word, r.value)
  }

  /** Scanning any window that holds an announcing text and then the announced
      word of letters, whole or cut off by the end of the window. The word is
      found unless its end would not fit in 64 bits; in that case nothing is,
      because the window then shows nothing but the word. */
  lemma ScanAnnounced(h: seq<byte>, p: nat, cmd: seq<byte>, data: seq<byte>)
    requires Window(h, p, cmd, data)
    requires |h| + |cmd| >= TWO64 ==> |data| <= |h| + |cmd|
    ensures if |h| + |cmd| < TWO64 then Finds(Scan(data), Shown(cmd, |data| - |h|)) else Scan(data) == None
  {
    if |h| + |cmd| < TWO64 {
      FitsIsFound(h, p, cmd, data);
    } else {
      WrapsIsNotFound(h, p, cmd, data);
    }
  }

  /** A buffer is kept at least as far as it agrees with text free of NULs. */
  lemma NoNulWithin(buf: seq<byte>, text: seq<byte>)
    requires |text| <= |buf| && buf[..|text|] == text
    requires forall i | 0 <= i < |text| :: text[i] != '\0'
    ensures NulEnd(buf) >= |text|
  {
    assert forall i | 0 <= i < |text| :: buf[i] == text[i];
  }

  /** A 32-byte capture that starts with an announcing text and then shows the
      announced word, up to the end of the word or of the capture. */
  lemma CaptureAnnounced(h: seq<byte>, p: nat, cmd: seq<byte>, buf: Capture,
                         decode: seq<byte> -> Option<seq<byte>>)
    requires Announces(h, p, |cmd|) && cmd != [] && AllAlpha(cmd) && |h| < 32
    requires '\0' !in h
    requires buf[..Min(32, |h| + |cmd|)] == (h + cmd)[..Min(32, |h| + |cmd|)]
    ensures var found := Scan(buf[..NulEnd(buf)]);
            if |h| + |cmd| < TWO64 then Finds(found, Shown(cmd, 32 - |h|)) else found == None
    ensures |h| >= 4 && |h| + |cmd| < TWO64 ==> Capitals(Shown(cmd, 32 - |h|), Classify(buf, decode))
  {
    var k := Min(32, |h| + |cmd|);
    NoNulWithin(buf, (h + cmd)[..k]);
    var data := buf[..NulEnd(buf)];
    assert data[..k] == buf[..k];
    ScanAnnounced(h, p, cmd, data);
    assert Shown(cmd, |data| - |h|) == Shown(cmd, 32 - |h|);
  }

  /** Round trip through a 32-byte capture. The capture agrees with the encoded
      request through the end of the command, or to the end of the window when
      the command is cut off; the bytes after the command are arbitrary. The
      scan finds the shown part of the command exactly when the command's end
      fits in 64 bits, as it does for every command a machine can hold. */
  lemma RoundTrip(args: seq<seq<byte>>, buf: Capture, decode: seq<byte> -> Option<seq<byte>>)
    requires args != [] && args[0] != [] && forall c | c in args[0] :: 'a' <= c <= 'z' || 'A' <= c <= 'Z'
    requires |Preamble(args)| < 32
    requires var k := Min(32, |Preamble(args)| + |args[0]|); buf[..k] == Encode(args)[..k]
    ensures var found := Scan(buf[..NulEnd(buf)]);
            if |Preamble(args)| + |args[0]| < TWO64 then Finds(found, Shown(args[0], 32 - |Preamble(args)|))
            else found == None
    ensures |Preamble(args)| + |args[0]| < TWO64 ==>
              Capitals(Shown(args[0], 32 - |Preamble(args)|), Classify(buf, decode))
  {
    assert AllAlpha(args[0]) by {
      assert forall i | 0 <= i < |args[0]| :: args[0][i] in args[0];
    }
    PreambleAnnounces(args, |ArrayHeader(|args|)|);
    EncodedCapture(args, buf);
    CaptureAnnounced(Preamble(args), |ArrayHeader(|args|)|, args[0], buf, decode);
  }

  lemma EncodedCapture(args: seq<seq<byte>>, buf: Capture)
    requires args != []
    requires var k := Min(32, |Preamble(args)| + |args[0]|); k <= |Encode(args)| && buf[..k] == Encode(args)[..k]
    ensures var k := Min(32, |Preamble(args)| + |args[0]|); buf[..k] == (Preamble(args) + args[0])[..k]
  {
    EncodedPrefix(args, Min(32, |Preamble(args)| + |args[0]|));
  }

  lemma EncodedPrefix(args: seq<seq<byte>>, k: nat)
    requires args != [] && k <= |Preamble(args)| + |args[0]|
    ensures k <= |Encode(args)| && Encode(args)[..k] == (Preamble(args) + args[0])[..k]
  {
    EncodeShape(args);
    PrefixOfSum(Preamble(args) + args[0], CRLF + Bulks(args[1..]), k);
  }

  lemma PrefixOfSum(a: seq<byte>, b: seq<byte>, k: nat)
    requires k <= |a|
    ensures (a + b)[..k] == a[..k]
  {
  }
}
