/** The PEM writer, and a reader for what it writes. */
module Pem {
  import opened Common

  const LINE: nat := 64

  // ---- Base64 (section 4 of RFC 4648) ---------------------------------------------------------

  /** `b64tab`: A to Z, a to z, 0 to 9, plus, slash. */
  function B64Char(i: nat): char
    requires i < 64
  {
    if i < 26 then 'A' + i as char
    else if i < 52 then 'a' + (i - 26) as char
    else if i < 62 then '0' + (i - 52) as char
    else if i == 62 then '+' else '/'
  }

  /** The number a character stands for; 64 for any that stands for none. */
  function Sextet(c: char): (r: nat)
    ensures r <= 64
  {
    if 'A' <= c <= 'Z' then (c - 'A') as int
    else if 'a' <= c <= 'z' then (c - 'a') as int + 26
    else if '0' <= c <= '9' then (c - '0') as int + 52
    else if c == '+' then 62
    else if c == '/' then 63
    else 64
  }

  lemma SextetOfChar(i: nat)
    requires i < 64
    ensures Sextet(B64Char(i)) == i && B64Char(i) != '=' && B64Char(i) != '\n' && B64Char(i) != '-'
  {
  }

  /** Three bytes as one number. */
  function Pack(x: int, y: int, z: int): int {
    x * 65536 + y * 256 + z
  }

  function ByteAt(s: seq<byte>, i: nat): int {
    if i < |s| then s[i] else 0
  }

  /** The four characters for one to three bytes, as the writer's loop body computes them. */
  function Quad(s: seq<byte>): (q: string)
    requires 1 <= |s| <= 3
    ensures |q| == 4
  {
    var v := Pack(s[0], ByteAt(s, 1), ByteAt(s, 2));
    [B64Char(v / 262144 % 64), B64Char(v / 4096 % 64),
     if |s| > 1 then B64Char(v / 64 % 64) else '=',
     if |s| > 2 then B64Char(v % 64) else '=']
  }

  function Base64(s: seq<byte>): string {
    if s == [] then "" else
      var n := Min(3, |s|);
      Quad(s[..n]) + Base64(s[n..])
  }

  /** One group of four characters. Padding may only hide bits that are zero. */
  function DecodeQuad(q: string): Option<seq<byte>>
    requires |q| == 4
  {
    var a, b, c, d := Sextet(q[0]), Sextet(q[1]), Sextet(q[2]), Sextet(q[3]);
    if a == 64 || b == 64 then None
    else if q[2] == '=' && q[3] == '=' then
      if b % 16 == 0 then Some([a * 4 + b / 16]) else None
    else if c == 64 then None
    else if q[3] == '=' then
      if c % 4 == 0 then Some([a * 4 + b / 16, b % 16 * 16 + c / 4]) else None
    else if d == 64 then None
    else Some([a * 4 + b / 16, b % 16 * 16 + c / 4, c % 4 * 64 + d])
  }

  /** Groups of four; only the last may be padded. */
  function DecodeBase64(s: string): Option<seq<byte>> {
    if s == "" then Some([])
    else if |s| < 4 then None
    else match DecodeQuad(s[..4])
         case None => None
         case Some(head) =>
           if |head| < 3 then (if |s| == 4 then Some(head) else None)
           else match DecodeBase64(s[4..])
                case None => None
                case Some(tail) => Some(head + tail)
  }

  lemma Digits64(a: nat, b: nat, c: nat, d: nat)
    requires a < 64 && b < 64 && c < 64 && d < 64
    ensures var v := ((a * 64 + b) * 64 + c) * 64 + d;
            v / 262144 % 64 == a && v / 4096 % 64 == b && v / 64 % 64 == c && v % 64 == d
  {
    var v := ((a * 64 + b) * 64 + c) * 64 + d;
    assert v / 64 == (a * 64 + b) * 64 + c;
    assert v / 4096 == a * 64 + b;
    assert v / 262144 == a;
  }

  lemma Sextets(x: byte, y: byte, z: byte) returns (a: nat, b: nat, c: nat, d: nat)
    ensures a < 64 && b < 64 && c < 64 && d < 64
    ensures Pack(x, y, z) == ((a * 64 + b) * 64 + c) * 64 + d
    ensures a * 4 + b / 16 == x && b % 16 * 16 + c / 4 == y && c % 4 * 64 + d == z
    ensures (y == 0 ==> b % 16 == 0) && (z == 0 ==> c % 4 == 0)
  {
    a, b, c, d := x / 4, x % 4 * 16 + y / 16, y % 16 * 4 + z / 64, z % 64;
  }

  lemma DecodeOne(x: byte, a: nat, b: nat)
    requires a < 64 && b < 64 && b % 16 == 0 && a * 4 + b / 16 == x
    ensures DecodeQuad([B64Char(a), B64Char(b), '=', '=']) == Some([x])
  {
    SextetOfChar(a);
    SextetOfChar(b);
  }

  lemma DecodeTwo(x: byte, y: byte, a: nat, b: nat, c: nat)
    requires a < 64 && b < 64 && c < 64 && c % 4 == 0
    requires a * 4 + b / 16 == x && b % 16 * 16 + c / 4 == y
    ensures DecodeQuad([B64Char(a), B64Char(b), B64Char(c), '=']) == Some([x, y])
  {
    SextetOfChar(a);
    SextetOfChar(b);
    SextetOfChar(c);
  }

  lemma DecodeThree(x: byte, y: byte, z: byte, a: nat, b: nat, c: nat, d: nat)
    requires a < 64 && b < 64 && c < 64 && d < 64
    requires a * 4 + b / 16 == x && b % 16 * 16 + c / 4 == y && c % 4 * 64 + d == z
    ensures DecodeQuad([B64Char(a), B64Char(b), B64Char(c), B64Char(d)]) == Some([x, y, z])
  {
    SextetOfChar(a);
    SextetOfChar(b);
    SextetOfChar(c);
    SextetOfChar(d);
  }

  lemma QuadOf(s: seq<byte>, a: nat, b: nat, c: nat, d: nat)
    requires 1 <= |s| <= 3 && a < 64 && b < 64 && c < 64 && d < 64
    requires Pack(s[0], ByteAt(s, 1), ByteAt(s, 2)) == ((a * 64 + b) * 64 + c) * 64 + d
    ensures Quad(s) == [B64Char(a), B64Char(b), if |s| > 1 then B64Char(c) else '=', if |s| > 2 then B64Char(d) else '=']
  {
    Digits64(a, b, c, d);
  }

  lemma QuadRoundTrip(s: seq<byte>)
    requires 1 <= |s| <= 3
    ensures DecodeQuad(Quad(s)) == Some(s)
  {
    hide Quad, DecodeQuad, B64Char;
    var x, y, z := s[0], ByteAt(s, 1), ByteAt(s, 2);
    var a, b, c, d := Sextets(x, y, z);
    QuadOf(s, a, b, c, d);
    if |s| == 1 {
      DecodeOne(x, a, b);
      assert s == [x];
    } else if |s| == 2 {
      DecodeTwo(x, y, a, b, c);
      assert s == [x, y];
    } else {
      DecodeThree(x, y, z, a, b, c, d);
      assert s == [x, y, z];
    }
  }

  lemma DecodeStep(head: string, tail: string, a: seq<byte>, b: seq<byte>)
    requires |head| == 4 && DecodeQuad(head) == Some(a) && DecodeBase64(tail) == Some(b)
    requires |a| == 3 || (b == [] && tail == "")
    ensures DecodeBase64(head + tail) == Some(a + b)
  {
    assert (head + tail)[..4] == head && (head + tail)[4..] == tail;
    assert b == [] ==> a + b == a;
  }

  lemma {:induction false} Base64RoundTrip(s: seq<byte>)
    ensures DecodeBase64(Base64(s)) == Some(s)
  {
    if s != [] {
      var n := Min(3, |s|);
      QuadRoundTrip(s[..n]);
      Base64RoundTrip(s[n..]);
      DecodeStep(Quad(s[..n]), Base64(s[n..]), s[..n], s[n..]);
      assert s[..n] + s[n..] == s;
    }
  }

  // ---- Lines ----------------------------------------------------------------------------------

  /** Text cut into lines. */
  function Lines(s: string): seq<string> {
    if s == "" then []
    else if |s| <= LINE then [s]
    else [s[..LINE]] + Lines(s[LINE..])
  }

  /** Every line has exactly 64 characters, except that the last may have fewer; none is empty; and
      nothing is lost. */
  lemma {:induction false} LinesShape(s: string)
    ensures forall l :: l in Lines(s) ==> 0 < |l| <= 64
    ensures forall i :: 0 <= i < |Lines(s)| - 1 ==> |Lines(s)[i]| == 64
    ensures Flatten(Lines(s)) == s
  {
    if s == "" {
    } else if |s| <= LINE {
      assert [s][1..] == [];
    } else {
      LinesShape(s[LINE..]);
      assert Lines(s)[1..] == Lines(s[LINE..]);
    }
  }

  /** Every line with its newline. */
  function Unlines(ls: seq<string>): string {
    if ls == [] then "" else ls[0] + "\n" + Unlines(ls[1..])
  }

  /** The longest run of characters without a newline, and what follows the newline. */
  function SplitLine(s: string): (r: (string, string))
    ensures |r.1| <= |s| && (s != "" ==> |r.1| < |s|)
  {
    if s == "" then ("", "")
    else if s[0] == '\n' then ("", s[1..])
    else var (l, rest) := SplitLine(s[1..]); ([s[0]] + l, rest)
  }

  function SplitLines(s: string): seq<string>
    decreases |s|
  {
    if s == "" then [] else var (l, rest) := SplitLine(s); [l] + SplitLines(rest)
  }

  lemma {:induction false} SplitLineOf(l: string, rest: string)
    requires '\n' !in l
    ensures SplitLine(l + "\n" + rest) == (l, rest)
  {
    var s := l + "\n" + rest;
    if l == "" {
      assert s[1..] == rest;
    } else {
      assert s[1..] == l[1..] + "\n" + rest;
      SplitLineOf(l[1..], rest);
      assert [l[0]] + l[1..] == l;
    }
  }

  lemma {:induction false} SplitLinesOfUnlines(ls: seq<string>)
    requires forall l :: l in ls ==> '\n' !in l
    ensures SplitLines(Unlines(ls)) == ls
  {
    if ls != [] {
      SplitLineOf(ls[0], Unlines(ls[1..]));
      SplitLinesOfUnlines(ls[1..]);
    }
  }

  // ---- The file -------------------------------------------------------------------------------

  const DASHES: string := "-----"

  function BeginLine(kind: string): string { DASHES + "BEGIN " + kind + DASHES }

  function EndLine(kind: string): string { DASHES + "END " + kind + DASHES }

  /** The text of a file: the two boundary lines around lines of base64 (section 3 of RFC 7468). */
  function PemText(kind: string, der: seq<byte>): string {
    Unlines([BeginLine(kind)] + Lines(Base64(der)) + [EndLine(kind)])
  }

  /** Reads such a file, given the label it should have: five dashes on both sides of the boundary lines. */
  function ReadPem(kind: string, text: string): Option<seq<byte>> {
    var ls := SplitLines(text);
    if |ls| < 2 || ls[0] != "-----BEGIN " + kind + "-----" || ls[|ls|-1] != "-----END " + kind + "-----" then None
    else DecodeBase64(Flatten(ls[1..|ls|-1]))
  }

  lemma {:induction false} Base64HasNoNewline(s: seq<byte>)
    ensures '\n' !in Base64(s)
  {
    if s != [] {
      var n := Min(3, |s|);
      Base64HasNoNewline(s[n..]);
      assert forall i: nat :: i < 64 ==> B64Char(i) != '\n';
    }
  }

  lemma {:induction false} InFlatten(ls: seq<string>, l: string, c: char)
    requires l in ls && c in l
    ensures c in Flatten(ls)
  {
    if l != ls[0] {
      InFlatten(ls[1..], l, c);
    }
  }

  lemma BoundaryLines(kind: string)
    ensures BeginLine(kind) == "-----BEGIN " + kind + "-----" && EndLine(kind) == "-----END " + kind + "-----"
  {
  }

  /** Reading a written file gives the bytes back, whatever they are. */
  lemma PemRoundTrip(kind: string, der: seq<byte>)
    requires '\n' !in kind
    ensures ReadPem(kind, PemText(kind, der)) == Some(der)
  {
    var body := Lines(Base64(der));
    var ls := [BeginLine(kind)] + body + [EndLine(kind)];
    LinesShape(Base64(der));
    forall l | l in ls
      ensures '\n' !in l
    {
      if l in body && '\n' in l {
        InFlatten(body, l, '\n');
        Base64HasNoNewline(der);
      }
    }
    SplitLinesOfUnlines(ls);
    BoundaryLines(kind);
    assert ls[1..|ls|-1] == body;
    Base64RoundTrip(der);
  }

  // ---- The writer -----------------------------------------------------------------------------

  lemma {:induction false} UnlinesConcat(a: seq<string>, b: seq<string>)
    ensures Unlines(a + b) == Unlines(a) + Unlines(b)
  {
    if a == [] {
      assert a + b == b;
    } else {
      assert (a + b)[1..] == a[1..] + b;
      UnlinesConcat(a[1..], b);
    }
  }

  /** A text with a newline behind every complete line. */
  function Wrapped(s: string): string
  {
    if |s| < LINE then s else s[..LINE] + "\n" + Wrapped(s[LINE..])
  }

  lemma {:induction false} WrappedPut(s: string, c: char)
    ensures Wrapped(s + [c]) == Wrapped(s) + [c] + if (|s| + 1) % LINE == 0 then "\n" else ""
  {
    if |s| < LINE - 1 {
    } else if |s| == LINE - 1 {
      assert (s + [c])[..LINE] == s + [c];
      assert (s + [c])[LINE..] == "";
    } else {
      assert (s + [c])[..LINE] == s[..LINE];
      assert (s + [c])[LINE..] == s[LINE..] + [c];
      WrappedPut(s[LINE..], c);
    }
  }

  lemma UnlinesOne(l: string)
    ensures Unlines([l]) == l + "\n"
  {
    assert [l][1..] == [];
  }

  lemma WrappedShort(s: string)
    requires 0 < |s| <= LINE
    ensures Wrapped(s) == (if |s| < LINE then s else s + "\n") && Lines(s) == [s]
  {
    if |s| == LINE {
      assert s[..LINE] == s && s[LINE..] == "";
    }
  }

  lemma WrappedLong(s: string)
    requires |s| > LINE
    ensures Wrapped(s) == s[..LINE] + "\n" + Wrapped(s[LINE..])
    ensures Lines(s) == [s[..LINE]] + Lines(s[LINE..])
  {
  }

  lemma OneLineLess(n: nat)
    requires n >= LINE
    ensures (n - LINE) % LINE == n % LINE
  {
  }

  lemma UnlinesCons(l: string, ls: seq<string>)
    ensures Unlines([l] + ls) == l + "\n" + Unlines(ls)
  {
    assert ([l] + ls)[1..] == ls;
  }

  lemma {:induction false} WrappedClose(s: string)
    ensures Wrapped(s) + (if |s| % LINE != 0 then "\n" else "") == Unlines(Lines(s))
  {
    if s == "" {
    } else {
      hide Wrapped, Lines, Unlines;
      if |s| <= LINE {
        WrappedShort(s);
        UnlinesOne(s);
      } else {
        var head, rest := s[..LINE] + "\n", s[LINE..];
        WrappedLong(s);
        OneLineLess(|s|);
        WrappedClose(rest);
        UnlinesCons(s[..LINE], Lines(rest));
        Assoc(head, Wrapped(rest), if |s| % LINE != 0 then "\n" else "");
      }
    }
  }

  /** The four characters of one group, each followed by a newline if it completes a line. */
  method PutGroup(file: string, col: nat, group: array<char>, ghost out: string) returns (next: string, nextCol: nat)
    requires group.Length == 4 && file == Wrapped(out) && col == |out| % LINE
    ensures next == Wrapped(out + group[..]) && nextCol == |out + group[..]| % LINE
  {
    hide Wrapped;
    next, nextCol := file, col;
    assert out + group[..0] == out;
    for j := 0 to 4
      invariant next == Wrapped(out + group[..j]) && nextCol == |out + group[..j]| % LINE
    {
      WrappedPut(out + group[..j], group[j]);
      assert out + group[..j] + [group[j]] == out + group[..j + 1];
      next := next + [group[j]];
      nextCol := nextCol + 1;
      if nextCol == LINE {
        next := next + "\n";
        nextCol := 0;
      }
    }
    assert group[..4] == group[..];
  }

  /** One turn of the writer's loop: the group for the bytes from `i` on. */
  method EncodeGroup(der: seq<byte>, i: nat, group: array<char>)
    requires i < |der| && group.Length == 4
    modifies group
    ensures group[..] == Quad(der[i..Min(i + 3, |der|)])
  {
    var v: nat, n := Pack(der[i], 0, 0), 1;
    ghost var s := der[i..Min(i + 3, |der|)];
    if i + 1 < |der| {
      v, n := v + Pack(0, der[i + 1], 0), n + 1;
    }
    if i + 2 < |der| {
      v, n := v + Pack(0, 0, der[i + 2]), n + 1;
    }
    assert v == Pack(s[0], ByteAt(s, 1), ByteAt(s, 2));
    group[0] := B64Char(v / 262144 % 64);
    group[1] := B64Char(v / 4096 % 64);
    group[2] := if n > 1 then B64Char(v / 64 % 64) else '=';
    group[3] := if n > 2 then B64Char(v % 64) else '=';
  }

  lemma Base64Step(der: seq<byte>, i: nat)
    requires i < |der|
    ensures Base64(der[i..]) == Quad(der[i..Min(i + 3, |der|)]) + Base64(der[Min(i + 3, |der|)..])
  {
    var left := der[i..];
    assert left[..Min(3, |left|)] == der[i..Min(i + 3, |der|)];
    assert left[Min(3, |left|)..] == der[Min(i + 3, |der|)..];
  }

  /** `write_pem`; the file is the text that is returned. */
  method WritePem(kind: string, der: seq<byte>) returns (text: string)
    ensures text == PemText(kind, der)
  {
    assert Wrapped("") == "";
    hide Wrapped, Quad, Lines;
    var file := "";
    var col := 0;
    var i := 0;
    var group := new char[4];
    ghost var out := "";
    while i < |der|
      invariant file == Wrapped(out) && col == |out| % LINE
      invariant Base64(der) == out + Base64(der[Min(i, |der|)..])
    {
      Base64Step(der, i);
      EncodeGroup(der, i, group);
      file, col := PutGroup(file, col, group, out);
      Assoc(out, group[..], Base64(der[Min(i + 3, |der|)..]));
      out := out + group[..];
      i := i + 3;
    }
    assert out == Base64(der);
    WrappedClose(out);
    if col != 0 {
      file := file + "\n";
    }
    text := BeginLine(kind) + "\n" + file + EndLine(kind) + "\n";
    var ls := [BeginLine(kind)] + Lines(out);
    UnlinesOne(BeginLine(kind));
    UnlinesOne(EndLine(kind));
    UnlinesConcat([BeginLine(kind)], Lines(out));
    UnlinesConcat(ls, [EndLine(kind)]);
    Assoc(BeginLine(kind) + "\n" + file, EndLine(kind), "\n");
  }
}
