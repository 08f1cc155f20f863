/** The request line of HTTP/1.1 (section 3.1.1 of RFC 7230): how it is printed and parsed. */
module Http {
  import opened Suffix

  const SP := 32
  const TAB := 9
  const LF := 10

  const CRLF: seq<nat> := [13, 10]

  /** The characters of HTTP/1.1. */
  const VERSION: seq<nat> := [72, 84, 84, 80, 47, 49, 46, 49]

  datatype Result = Request(command: seq<nat>, resource: seq<nat>) | EINVAL | EPROTO | EMSGSIZE

  /** A C string, without its terminator. */
  ghost predicate IsString(s: seq<nat>) {
    forall i :: 0 <= i < |s| ==> s[i] != 0
  }

  predicate HasBlank(s: seq<nat>) {
    SP in s || TAB in s || LF in s
  }

  function Line(command: seq<nat>, resource: seq<nat>): seq<nat> {
    command + [SP] + resource + [SP] + VERSION
  }

  // ------------------------------------------------------------------ scanning

  /** The end of the spaces from `p` on. */
  function Spaces(buf: seq<nat>, p: nat): (q: nat)
    requires p < |buf| && buf[|buf| - 1] == 0
    ensures p <= q < |buf| && buf[q] != SP && forall i :: p <= i < q ==> buf[i] == SP
    decreases |buf| - p
  {
    if buf[p] == SP then Spaces(buf, p + 1) else p
  }

  /** The end of the word from `p` on. */
  function Word(buf: seq<nat>, p: nat): (q: nat)
    requires p < |buf| && buf[|buf| - 1] == 0
    ensures p <= q < |buf| && (buf[q] == 0 || buf[q] == SP) && forall i :: p <= i < q ==> buf[i] != 0 && buf[i] != SP
    decreases |buf| - p
  {
    if buf[p] == 0 || buf[p] == SP then p else Word(buf, p + 1)
  }

  /** The places where the three words of a line start and end. */
  datatype Words = Words(a: nat, b: nat, c: nat, d: nat, e: nat, f: nat)

  function WordsOf(buf: seq<nat>): (w: Words)
    requires |buf| > 0 && buf[|buf| - 1] == 0
    ensures w.a <= w.b <= w.c <= w.d <= w.e <= w.f < |buf|
  {
    var a := Spaces(buf, 0);
    var b := Word(buf, a);
    var c := Spaces(buf, b);
    var d := Word(buf, c);
    var e := Spaces(buf, d);
    Words(a, b, c, d, e, Word(buf, e))
  }

  /** What a request is: three words with spaces around them, and nothing behind. The third is taken
      for the version if it has eight characters or starts as the version does. */
  ghost predicate IsRequest(buf: seq<nat>)
    requires |buf| > 0 && buf[|buf| - 1] == 0
  {
    var w := WordsOf(buf);
    buf[w.b] == SP && buf[w.d] == SP && (w.f - w.e == 8 || StartsAt(buf, w.e)) && buf[Spaces(buf, w.f)] == 0
  }

  predicate StartsAt(buf: seq<nat>, e: nat) {
    e + 8 <= |buf| && buf[e..e + 8] == VERSION
  }

  method SkipSpaces(buf: seq<nat>, p: nat) returns (q: nat)
    requires p < |buf| && buf[|buf| - 1] == 0
    ensures q == Spaces(buf, p)
  {
    q := p;
    while buf[q] == SP
      invariant p <= q < |buf| && Spaces(buf, p) == Spaces(buf, q)
      decreases |buf| - q
    {
      q := q + 1;
    }
  }

  method SkipWord(buf: seq<nat>, p: nat) returns (q: nat)
    requires p < |buf| && buf[|buf| - 1] == 0
    ensures q == Word(buf, p)
  {
    q := p;
    while buf[q] != 0 && buf[q] != SP
      invariant p <= q < |buf| && Word(buf, p) == Word(buf, q)
      decreases |buf| - q
    {
      q := q + 1;
    }
  }

  /** `dill_http_recvrequest` on the line received, with room for so many characters in the two
      results, terminators included. */
  method ParseRequest(line: seq<nat>, commandlen: nat, resourcelen: nat) returns (r: Result)
    requires commandlen > 0 && resourcelen > 0
    ensures var buf := line + [0];
      var w := WordsOf(buf);
      && (r.Request? <==> IsRequest(buf) && w.b - w.a < commandlen && w.d - w.c < resourcelen)
      && (r.Request? ==> r == Request(buf[w.a..w.b], buf[w.c..w.d]))
      && (IsRequest(buf) && !r.Request? ==> r == EMSGSIZE) && r != EINVAL
  {
    var buf := line + [0];
    var a := SkipSpaces(buf, 0);
    var b := SkipWord(buf, a);
    if buf[b] == 0 { return EPROTO; }
    if b - a > commandlen - 1 { return EMSGSIZE; }
    var c := SkipSpaces(buf, b);
    var d := SkipWord(buf, c);
    if buf[d] == 0 { return EPROTO; }
    if d - c > resourcelen - 1 { return EMSGSIZE; }
    var e := SkipSpaces(buf, d);
    var f := SkipWord(buf, e);
    if f - e != 8 && !StartsAt(buf, e) { return EPROTO; }
    var g := SkipSpaces(buf, f);
    if buf[g] != 0 { return EPROTO; }
    return Request(buf[a..b], buf[c..d]);
  }

  // ------------------------------------------------------------------ the round trip

  lemma {:induction false} WordIs(buf: seq<nat>, p: nat, q: nat)
    requires p <= q < |buf| && buf[|buf| - 1] == 0
    requires (buf[q] == 0 || buf[q] == SP) && forall i :: p <= i < q ==> buf[i] != 0 && buf[i] != SP
    ensures Word(buf, p) == q
    decreases q - p
  {
    if p < q { WordIs(buf, p + 1, q); }
  }

  ghost predicate Printable(s: seq<nat>) {
    s != [] && !HasBlank(s) && IsString(s)
  }

  /** A word that stands between spaces or before the end. */
  lemma WordAt(buf: seq<nat>, p: nat, s: seq<nat>)
    requires p + |s| < |buf| && buf[|buf| - 1] == 0 && buf[p..p + |s|] == s && Printable(s) &&
      (buf[p + |s|] == 0 || buf[p + |s|] == SP)
    ensures Word(buf, p) == p + |s| && Spaces(buf, p) == p
  {
    forall i | p <= i < p + |s| ensures buf[i] != 0 && buf[i] != SP {
      assert buf[i] == s[i - p];
    }
    WordIs(buf, p, p + |s|);
  }

  lemma LinePieces(command: seq<nat>, resource: seq<nat>)
    ensures var n, m, buf := |command|, |resource|, Line(command, resource) + [0];
      && |buf| == n + m + 11 && buf[0..n] == command && buf[n] == SP && buf[n + 1..n + 1 + m] == resource
      && buf[n + 1 + m] == SP
      && buf[n + m + 2..n + m + 10] == VERSION && buf[n + m + 10] == 0
  {
  }

  /** The words of a printed line are those it was printed from. */
  lemma LineParsed(command: seq<nat>, resource: seq<nat>)
    requires Printable(command) && Printable(resource)
    ensures var n, m, buf := |command|, |resource|, Line(command, resource) + [0];
      && WordsOf(buf) == Words(0, n, n + 1, n + 1 + m, n + m + 2, n + m + 10) && IsRequest(buf)
      && buf[0..n] == command && buf[n + 1..n + 1 + m] == resource
  {
    var n, m, buf := |command|, |resource|, Line(command, resource) + [0];
    LinePieces(command, resource);
    PiecesParsed(buf, command, resource, VERSION);
  }

  lemma PiecesParsed(buf: seq<nat>, command: seq<nat>, resource: seq<nat>, version: seq<nat>)
    requires Printable(command) && Printable(resource) && Printable(version) && |version| == 8
    requires var n, m := |command|, |resource|;
      && |buf| == n + m + 11 && buf[0..n] == command && buf[n] == SP && buf[n + 1..n + 1 + m] == resource
      && buf[n + 1 + m] == SP
      && buf[n + m + 2..n + m + 10] == version && buf[n + m + 10] == 0
    ensures var n, m := |command|, |resource|;
      WordsOf(buf) == Words(0, n, n + 1, n + 1 + m, n + m + 2, n + m + 10) && IsRequest(buf)
  {
    var n, m := |command|, |resource|;
    WordAt(buf, 0, command);
    WordAt(buf, n + 1, resource);
    WordAt(buf, n + m + 2, version);
    PlacedWords(buf, n, m);
  }

  /** Any eight characters pass for the version: of its length and its text only one is required. */
  lemma AnyVersion(command: seq<nat>, resource: seq<nat>, version: seq<nat>)
    requires Printable(command) && Printable(resource) && Printable(version) && |version| == 8
    ensures IsRequest(command + [SP] + resource + [SP] + version + [0])
  {
    var n, m, buf := |command|, |resource|, command + [SP] + resource + [SP] + version + [0];
    assert buf[0..n] == command && buf[n + 1..n + 1 + m] == resource && buf[n + m + 2..n + m + 10] == version;
    PiecesParsed(buf, command, resource, version);
  }

  lemma PlacedWords(buf: seq<nat>, n: nat, m: nat)
    requires |buf| == n + m + 11 && buf[n] == SP && buf[n + 1 + m] == SP && buf[n + m + 10] == 0
    requires Spaces(buf, 0) == 0 && Word(buf, 0) == n
    requires Spaces(buf, n + 1) == n + 1 && Word(buf, n + 1) == n + 1 + m
    requires Spaces(buf, n + m + 2) == n + m + 2 && Word(buf, n + m + 2) == n + m + 10
    ensures WordsOf(buf) == Words(0, n, n + 1, n + 1 + m, n + m + 2, n + m + 10) && IsRequest(buf)
  {
    assert Spaces(buf, n) == Spaces(buf, n + 1) && Spaces(buf, n + 1 + m) == Spaces(buf, n + m + 2);
  }

  /** A printed line holds no line end but the one that is sent behind it. */
  lemma LineClean(command: seq<nat>, resource: seq<nat>)
    requires !HasBlank(command) && !HasBlank(resource)
    ensures Clean(Line(command, resource), CRLF)
  {
    var line := Line(command, resource);
    var s := line + CRLF;
    assert s[|line|..|line| + 2] == CRLF;
    forall j: nat | j < |line| ensures !At(s, CRLF, j) {
      if At(s, CRLF, j) {
        assert s[j..j + 2][1] == LF;
        NoLineFeed(command, resource, j + 1);
      }
    }
  }

  lemma NoLineFeed(command: seq<nat>, resource: seq<nat>, i: nat)
    requires !HasBlank(command) && !HasBlank(resource) && i <= |Line(command, resource)|
    ensures (Line(command, resource) + CRLF)[i] != LF
  {
    var n, m, line := |command|, |resource|, Line(command, resource);
    if i < n {
      assert line[i] == command[i];
    } else if n < i < n + 1 + m {
      assert line[i] == resource[i - n - 1];
    } else if n + m + 2 <= i < |line| {
      assert line[i] == VERSION[i - n - m - 2];
    }
  }

  // ------------------------------------------------------------------ lines that do not come back

  lemma {:induction false} SpacesTo(buf: seq<nat>, p: nat, q: nat)
    requires p <= q < |buf| && buf[|buf| - 1] == 0 && buf[q] != SP && forall i :: p <= i < q ==> buf[i] == SP
    ensures Spaces(buf, p) == q
    decreases q - p
  {
    if p < q { SpacesTo(buf, p + 1, q); }
  }

  /** Two words only, with spaces before and between them and nothing behind. */
  lemma TwoWords(buf: seq<nat>, a: nat, b: nat, c: nat, d: nat)
    requires |buf| > 0 && buf[|buf| - 1] == 0 && d == |buf| - 1
    requires Spaces(buf, 0) == a && Word(buf, a) == b && Spaces(buf, b) == c && Word(buf, c) == d
    ensures !IsRequest(buf)
  {
  }

  lemma NoResource(buf: seq<nat>, command: seq<nat>, version: seq<nat>)
    requires Printable(command) && Printable(version) && |version| == 8
    requires var n := |command|;
      && |buf| == n + 11 && buf[0..n] == command && buf[n] == SP && buf[n + 1] == SP
      && buf[n + 2..n + 10] == version && buf[n + 10] == 0
    ensures !IsRequest(buf)
  {
    var n := |command|;
    WordAt(buf, 0, command);
    WordAt(buf, n + 2, version);
    SpacesTo(buf, n, n + 2);
    TwoWords(buf, 0, n, n + 2, n + 10);
  }

  /** The version is taken for the resource, and none follows. */
  lemma NoCommand(buf: seq<nat>, resource: seq<nat>, version: seq<nat>)
    requires Printable(resource) && Printable(version) && |version| == 8
    requires var m := |resource|;
      && |buf| == m + 11 && buf[0] == SP && buf[1..1 + m] == resource && buf[1 + m] == SP
      && buf[m + 2..m + 10] == version && buf[m + 10] == 0
    ensures !IsRequest(buf)
  {
    var m := |resource|;
    WordAt(buf, 1, resource);
    WordAt(buf, m + 2, version);
    SpacesTo(buf, 0, 1);
    SpacesTo(buf, 1 + m, m + 2);
    TwoWords(buf, 1, 1 + m, m + 2, m + 10);
  }

  lemma Neither(buf: seq<nat>, version: seq<nat>)
    requires Printable(version) && |version| == 8
    requires |buf| == 11 && buf[0] == SP && buf[1] == SP && buf[2..10] == version && buf[10] == 0
    ensures !IsRequest(buf)
  {
    WordAt(buf, 2, version);
    SpacesTo(buf, 0, 2);
    TwoWords(buf, 2, 10, 10, 10);
  }

  /** Without a command or without a resource the line is no request. */
  lemma EmptyWord(command: seq<nat>, resource: seq<nat>)
    requires !HasBlank(command) && !HasBlank(resource) && IsString(command) && IsString(resource)
    requires command == [] || resource == []
    ensures !IsRequest(Line(command, resource) + [0])
  {
    var buf := Line(command, resource) + [0];
    LinePieces(command, resource);
    if command != [] {
      NoResource(buf, command, VERSION);
    } else if resource != [] {
      NoCommand(buf, resource, VERSION);
    } else {
      Neither(buf, VERSION);
    }
  }

  /** The words found in a line are the two it was printed from. */
  ghost predicate ReadsAs(line: seq<nat>, command: seq<nat>, resource: seq<nat>) {
    var buf := line + [0];
    var w := WordsOf(buf);
    IsRequest(buf) && buf[w.a..w.b] == command && buf[w.c..w.d] == resource
  }

  /** The codes of the characters of a text. */
  ghost predicate Spells(s: seq<nat>, t: string) {
    |s| == |t| && forall i :: 0 <= i < |t| ==> s[i] == t[i] as int
  }

  lemma Texts()
    ensures Spells([SP], " ") && Spells([SP] + VERSION, " HTTP/1.1") && Spells(CRLF, "\r\n")
    ensures Spells([SP, TAB, LF], " \t\n")
  {
  }

  /** A printed line reads: the command, a space, the resource, a space and HTTP/1.1. */
  lemma SpelledOut(command: seq<nat>, resource: seq<nat>)
    ensures var line, n, m := Line(command, resource), |command|, |resource|;
      && |line| == n + m + 10 && line[..n] == command && Spells(line[n..n + 1], " ")
      && line[n + 1..n + 1 + m] == resource && Spells(line[n + 1 + m..], " HTTP/1.1") && Spells(CRLF, "\r\n")
  {
    var line, n, m := Line(command, resource), |command|, |resource|;
    Texts();
    assert line[n..n + 1] == [SP] && line[n + 1 + m..] == [SP] + VERSION;
  }

  /** `dill_http_sendrequest`: the line that is sent as a message. It is clean, and it reads as what it
      was printed from if and only if there are a command and a resource. */
  method PrintRequest(command: seq<nat>, resource: seq<nat>) returns (ok: bool, line: seq<nat>)
    requires IsString(command) && IsString(resource)
    ensures ok <==> !HasBlank(command) && !HasBlank(resource)
    ensures ok ==> line == Line(command, resource) && Clean(line, CRLF) && |line| == |command| + |resource| + 10
    ensures ok ==> (ReadsAs(line, command, resource) <==> command != [] && resource != [])
    ensures ok ==> (IsRequest(line + [0]) <==> command != [] && resource != [])
  {
    if HasBlank(command) || HasBlank(resource) { return false, []; }
    line := command + [SP] + resource + [SP] + VERSION;
    ok := true;
    LineClean(command, resource);
    if command != [] && resource != [] {
      LineParsed(command, resource);
    } else {
      EmptyWord(command, resource);
    }
  }

  /** The size of the socket's own line buffer. */
  const RXBUF := 1024

  /** Receiving a line into that buffer, behind which a terminator is written: its place is within the
      buffer if and only if the first line end stands before place 1024 of what is still to come. */
  method RecvLine(sock: Socket) returns (r: int, terminated: bool)
    requires sock.Valid() && sock.suffix == CRLF && !sock.inerr
    modifies sock`input, sock`inerr, sock.buf
    ensures r >= 0 ==> FirstAt(old(sock.input), CRLF, r) && sock.input == old(sock.input)[r + 2..]
    ensures r == -1 <==> Absent(old(sock.input), CRLF)
    ensures terminated <==> exists i: nat :: i < RXBUF && At(old(sock.input), CRLF, i)
    ensures terminated <==> 0 <= r < RXBUF
  {
    ghost var s := sock.input;
    var out := new nat[RXBUF - 1](_ => 0);
    r := sock.MRecv(out);
    terminated := 0 <= r < RXBUF;
    if r >= 0 { assert At(s, CRLF, r); }
  }

  /** A request is printed, sent as a message, received in a buffer that is large enough and parsed:
      the same command and resource come back if and only if there are a command and a resource. */
  method RoundTrip(command: seq<nat>, resource: seq<nat>, commandlen: nat, resourcelen: nat, size: nat)
    returns (r: Result)
    requires IsString(command) && IsString(resource)
    requires |command| < commandlen && |resource| < resourcelen && |command| + |resource| + 10 <= size
    ensures r == EINVAL <==> HasBlank(command) || HasBlank(resource)
    ensures r != EINVAL ==> (r == Request(command, resource) <==> command != [] && resource != [])
    ensures r != EINVAL ==> (r.Request? <==> command != [] && resource != [])
  {
    var ok, line := PrintRequest(command, resource);
    if !ok { return EINVAL; }
    var a := new Socket(CRLF, []);
    ok := a.MSend(line, false, 0);
    StreamOne(line, CRLF);
    assert [] + [line] == [line];
    var b := new Socket(CRLF, a.sent);
    assert a.sent == line + CRLF + [];
    var n, got := b.ReceiveOne(line, [], size);
    r := ParseRequest(got, commandlen, resourcelen);
  }
}
