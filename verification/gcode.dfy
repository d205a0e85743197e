/** The two motion commands and their one-line text form. A command is a
    kind (G0 rapid travel, G1 mark) and three optional fields: X, Y and the
    power S. Coordinates are grid indices; the division by the resolution
    and the three-decimal formatting are abstracted, so numbers render as
    decimal integers. */
module GCode {
  import opened Wrappers
  import Seqs

  datatype Kind = G0 | G1

  datatype Command = Command(kind: Kind, x: Option<nat>, y: Option<nat>, s: Option<nat>)

  function Prefix(k: Kind): string
  {
    match k
    case G0 => "G0"
    case G1 => "G1"
  }

  predicate IsDigit(c: char)
  {
    '0' <= c <= '9'
  }

  predicate AllDigits(d: string)
  {
    forall i :: 0 <= i < |d| ==> IsDigit(d[i])
  }

  function DigitChar(n: nat): (c: char)
    requires n < 10
    ensures IsDigit(c)
  {
    ('0' as int + n) as char
  }

  function DigitValue(c: char): (n: nat)
    requires IsDigit(c)
    ensures n < 10
  {
    c as int - '0' as int
  }

  /** Decimal digits of `n`, most significant first. */
  function Decimal(n: nat): (d: string)
    ensures |d| > 0 && AllDigits(d)
  {
    if n < 10 then [DigitChar(n)] else Decimal(n / 10) + [DigitChar(n % 10)]
  }

  /** The number a digit string denotes. */
  function ValueOf(d: string): nat
    requires AllDigits(d)
  {
    if |d| == 0 then 0 else ValueOf(d[..|d| - 1]) * 10 + DigitValue(d[|d| - 1])
  }

  lemma {:induction false} DecimalRoundTrip(n: nat)
    ensures ValueOf(Decimal(n)) == n
  {
    if n >= 10 {
      DecimalRoundTrip(n / 10);
      var d := Decimal(n);
      assert d[..|d| - 1] == Decimal(n / 10);
    }
  }

  /** One optional field: a space, the axis letter and the value, or nothing. */
  function Field(letter: char, v: Option<nat>): string
  {
    match v
    case None => ""
    case Some(n) => [' ', letter] + Decimal(n)
  }

  lemma FieldLetters(letter: char, v: Option<nat>, other: char)
    requires !IsDigit(other) && other != ' '
    ensures other in Field(letter, v) <==> (v.Some? && other == letter)
  {
    if v.Some? {
      var f := Field(letter, v);
      var d := Decimal(v.value);
      assert f == [' ', letter] + d;
    }
  }

  /** The text of a command, as `G0::toString`, `G1::toString` and their
      `std::string` conversions produce it: the two-letter code, then X, Y
      and S in that order, each only when set. */
  function Render(c: Command): (line: string)
    ensures |line| >= 2 && line[..2] == Prefix(c.kind)
    ensures 'X' in line <==> c.x.Some?
    ensures 'Y' in line <==> c.y.Some?
    ensures 'S' in line <==> c.s.Some?
    ensures c.x.None? && c.y.None? && c.s.None? ==> line == Prefix(c.kind)
  {
    var fx, fy, fs := Field('X', c.x), Field('Y', c.y), Field('S', c.s);
    FieldLetters('X', c.x, 'X'); FieldLetters('Y', c.y, 'X'); FieldLetters('S', c.s, 'X');
    FieldLetters('X', c.x, 'Y'); FieldLetters('Y', c.y, 'Y'); FieldLetters('S', c.s, 'Y');
    FieldLetters('X', c.x, 'S'); FieldLetters('Y', c.y, 'S'); FieldLetters('S', c.s, 'S');
    var line := Prefix(c.kind) + fx + fy + fs;
    assert line[..2] == Prefix(c.kind);
    line
  }

  /** One line per command, in order. */
  function RenderAll(cmds: seq<Command>): (lines: seq<string>)
    ensures |lines| == |cmds|
    ensures forall i :: 0 <= i < |cmds| ==> lines[i] == Render(cmds[i])
  {
    seq(|cmds|, i requires 0 <= i < |cmds| => Render(cmds[i]))
  }

  /** Length of the leading run of digits of `s`. */
  function DigitRun(s: string): (n: nat)
    ensures n <= |s| && AllDigits(s[..n])
    ensures n == |s| || !IsDigit(s[n])
  {
    if |s| == 0 || !IsDigit(s[0]) then 0
    else
      var n := 1 + DigitRun(s[1..]);
      assert s[..n] == [s[0]] + s[1..][..n - 1];
      n
  }

  lemma {:induction false} DigitRunOfDigits(d: string, rest: string)
    requires AllDigits(d)
    requires |rest| == 0 || !IsDigit(rest[0])
    ensures DigitRun(d + rest) == |d|
  {
    if |d| > 0 {
      assert (d + rest)[1..] == d[1..] + rest;
      DigitRunOfDigits(d[1..], rest);
    } else {
      assert d + rest == rest;
    }
  }

  datatype FieldParse = FieldParse(value: Option<nat>, rest: string)

  /** Reads an optional ` <letter><digits>` field from the front of `s`. */
  function ParseField(letter: char, s: string): Option<FieldParse>
  {
    if |s| >= 2 && s[0] == ' ' && s[1] == letter then
      var n := DigitRun(s[2..]);
      if n == 0 then None else Some(FieldParse(Some(ValueOf(s[2..][..n])), s[2 + n..]))
    else Some(FieldParse(None, s))
  }

  /** Reads a rendered line back into a command. */
  function Parse(line: string): Option<Command>
  {
    if |line| < 2 || line[0] != 'G' || (line[1] != '0' && line[1] != '1') then None
    else
      var kind := if line[1] == '0' then G0 else G1;
      var fx :- ParseField('X', line[2..]);
      var fy :- ParseField('Y', fx.rest);
      var fs :- ParseField('S', fy.rest);
      if |fs.rest| == 0 then Some(Command(kind, fx.value, fy.value, fs.value)) else None
  }

  /** What may follow a field: nothing, or another field whose letter is not `letter`. */
  predicate FieldFollower(letter: char, rest: string)
  {
    |rest| == 0 || (|rest| >= 2 && rest[0] == ' ' && rest[1] != letter)
  }

  lemma ParseFieldOfField(letter: char, v: Option<nat>, rest: string)
    requires letter != ' ' && !IsDigit(letter)
    requires FieldFollower(letter, rest)
    ensures ParseField(letter, Field(letter, v) + rest) == Some(FieldParse(v, rest))
  {
    var s := Field(letter, v) + rest;
    if v.Some? {
      var d := Decimal(v.value);
      assert s == [' ', letter] + (d + rest);
      ParseDigits(letter, d, rest);
      DecimalRoundTrip(v.value);
    } else {
      assert s == rest;
    }
  }

  /** A field written with any nonempty digit string reads back its value. */
  lemma ParseDigits(letter: char, d: string, rest: string)
    requires |d| > 0 && AllDigits(d)
    requires |rest| == 0 || !IsDigit(rest[0])
    ensures ParseField(letter, [' ', letter] + (d + rest)) == Some(FieldParse(Some(ValueOf(d)), rest))
  {
    var s := [' ', letter] + (d + rest);
    assert s[2..] == d + rest;
    DigitRunOfDigits(d, rest);
    assert s[2..][..|d|] == d;
    assert s[2 + |d|..] == rest;
  }

  /** Rendering loses nothing: the text reads back as the same command. */
  lemma RenderParseRoundTrip(c: Command)
    ensures Parse(Render(c)) == Some(c)
  {
    var fx, fy, fs := Field('X', c.x), Field('Y', c.y), Field('S', c.s);
    var line := Render(c);
    RenderIsFields(c);
    assert line[2..] == fx + (fy + fs);
    assert fs + "" == fs;
    ParseFieldOfField('S', c.s, "");
    ParseFieldOfField('Y', c.y, fs);
    FollowerOfY(c.y, c.s);
    ParseFieldOfField('X', c.x, fy + fs);
    assert ParseField('X', line[2..]) == Some(FieldParse(c.x, fy + fs));
    ParseSteps(line, c.kind, FieldParse(c.x, fy + fs), FieldParse(c.y, fs), FieldParse(c.s, ""));
  }

  lemma RenderIsFields(c: Command)
    ensures Render(c) == Prefix(c.kind) + (Field('X', c.x) + (Field('Y', c.y) + Field('S', c.s)))
  {
  }

  lemma FollowerOfY(y: Option<nat>, s: Option<nat>)
    ensures FieldFollower('X', Field('Y', y) + Field('S', s))
  {
    var fy, fs := Field('Y', y), Field('S', s);
    if y.Some? {
      assert (fy + fs)[..2] == [' ', 'Y'];
    } else if s.Some? {
      assert fy + fs == fs;
      assert fs[..2] == [' ', 'S'];
    } else {
      assert fy + fs == "";
    }
  }

  lemma ParseSteps(line: string, kind: Kind, fx: FieldParse, fy: FieldParse, fs: FieldParse)
    requires |line| >= 2 && line[..2] == Prefix(kind)
    requires ParseField('X', line[2..]) == Some(fx)
    requires ParseField('Y', fx.rest) == Some(fy)
    requires ParseField('S', fy.rest) == Some(fs)
    requires fs.rest == ""
    ensures Parse(line) == Some(Command(kind, fx.value, fy.value, fs.value))
  {
    assert line[0] == 'G' && line[1] == (if kind == G0 then '0' else '1');
  }

  /** Different commands never render to the same text. */
  lemma RenderInjective(a: Command, b: Command)
    requires Render(a) == Render(b)
    ensures a == b
  {
    RenderParseRoundTrip(a);
    RenderParseRoundTrip(b);
  }

  /** The G0 and G1 renderings of the same fields differ only in the
      two-character prefix. */
  lemma RenderKindsShareFields(c: Command)
    ensures Render(c.(kind := G0))[2..] == Render(c.(kind := G1))[2..]
    ensures Render(c.(kind := G0))[..2] == "G0" && Render(c.(kind := G1))[..2] == "G1"
  {
  }

  /** Every command sets the X axis. */
  predicate AllHaveX(cmds: seq<Command>)
  {
    forall i :: 0 <= i < |cmds| ==> cmds[i].x.Some?
  }

  /** X and power of every command that carries power, in order. */
  function Powered(cmds: seq<Command>): seq<(Option<nat>, nat)>
  {
    if |cmds| == 0 then []
    else (if cmds[0].s.Some? then [(cmds[0].x, cmds[0].s.value)] else []) + Powered(cmds[1..])
  }

  /** Number of commands without a power field. */
  function Unpowered(cmds: seq<Command>): nat
  {
    if |cmds| == 0 then 0 else (if cmds[0].s.None? then 1 else 0) + Unpowered(cmds[1..])
  }

  /** X of every command without a power field, in order. */
  function Rapids(cmds: seq<Command>): seq<Option<nat>>
  {
    if |cmds| == 0 then [] else (if cmds[0].s.None? then [cmds[0].x] else []) + Rapids(cmds[1..])
  }

  lemma {:induction false} RapidsConcat(a: seq<Command>, b: seq<Command>)
    ensures Rapids(a + b) == Rapids(a) + Rapids(b)
  {
    if |a| == 0 {
      assert a + b == b;
    } else {
      var ab := a + b;
      assert ab[0] == a[0];
      assert ab[1..] == a[1..] + b;
      RapidsConcat(a[1..], b);
      var h := if a[0].s.None? then [a[0].x] else [];
      assert Rapids(ab) == h + (Rapids(a[1..]) + Rapids(b));
    }
  }

  /** The power accounting of a single command. */
  lemma PoweredSingle(c: Command)
    ensures Powered([c]) == (if c.s.Some? then [(c.x, c.s.value)] else [])
    ensures Unpowered([c]) == (if c.s.None? then 1 else 0)
    ensures Rapids([c]) == (if c.s.None? then [c.x] else [])
  {
    assert [c][1..] == [];
  }

  lemma {:induction false} PoweredConcat(a: seq<Command>, b: seq<Command>)
    ensures Powered(a + b) == Powered(a) + Powered(b)
    ensures Unpowered(a + b) == Unpowered(a) + Unpowered(b)
  {
    if |a| == 0 {
      assert a + b == b;
    } else {
      var ab := a + b;
      assert ab[0] == a[0];
      assert ab[1..] == a[1..] + b;
      PoweredConcat(a[1..], b);
      var h := if a[0].s.Some? then [(a[0].x, a[0].s.value)] else [];
      assert Powered(ab) == h + (Powered(a[1..]) + Powered(b));
      assert Powered(a) == h + Powered(a[1..]);
    }
  }

  /** Every command either carries power or does not. */
  lemma {:induction false} PoweredSplit(cmds: seq<Command>)
    ensures |Powered(cmds)| + Unpowered(cmds) == |cmds|
  {
    if |cmds| > 0 {
      PoweredSplit(cmds[1..]);
    }
  }

  /** What a strategy's output is checked against: every command sets X,
      the powered commands are exactly `marks`, and there are at most
      `bound` commands. */
  predicate Accounts(cmds: seq<Command>, marks: seq<(Option<nat>, nat)>, bound: int)
  {
    AllHaveX(cmds) && Powered(cmds) == marks && |cmds| <= bound
  }

  /** Appending a row's commands to those of the rows before it. */
  lemma UpToStep(before: seq<Command>, row: seq<Command>, mb: seq<(Option<nat>, nat)>,
                 mr: seq<(Option<nat>, nat)>, n: nat, cols: nat)
    requires n > 0 && Accounts(before, mb, (n - 1) * cols) && Accounts(row, mr, cols)
    ensures Accounts(before + row, mb + mr, n * cols)
  {
    PoweredConcat(before, row);
    AllHaveXConcat(before, row);
    LengthStep(|before|, |row|, n, cols);
  }

  lemma AllHaveXConcat(a: seq<Command>, b: seq<Command>)
    requires AllHaveX(a) && AllHaveX(b)
    ensures AllHaveX(a + b)
  {
    forall i | 0 <= i < |a + b| ensures (a + b)[i].x.Some? {
      if i >= |a| {
        assert (a + b)[i] == b[i - |a|];
      }
    }
  }

  lemma LengthStep(a: nat, b: nat, n: nat, cols: nat)
    requires n > 0 && a <= (n - 1) * cols && b <= cols
    ensures a + b <= n * cols
  {
    Seqs.MulSucc(n - 1, cols);
  }
}
