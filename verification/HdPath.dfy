/**
 Derivation paths of hierarchical deterministic wallets, in the notation of BIP-32
 and BIP-44: parsing what a user wrote and printing it in its canonical form.
 */
module DerivationPaths {
  const HARDENED: nat := 0x8000_0000
  const MAX_UINT32: nat := 0xFFFF_FFFF

  const DEFAULT_ROOT: seq<nat> := [HARDENED + 44, HARDENED + 60, HARDENED + 0, 0]

  type Path = seq<nat>

  datatype Error =
    | EmptyPath
    | AmbiguousPath
    | InvalidComponent(text: string)
    | OutOfRange(value: int, hardened: bool)

  datatype Result<T> = Ok(value: T) | Err(error: Error)

  /** A path of 32-bit components. */
  predicate IsPath(p: Path) {
    forall i :: 0 <= i < |p| ==> p[i] <= MAX_UINT32
  }

  // ---------- text ----------

  predicate IsSpace(c: char) {
    || '\t' <= c <= '\r' || c == ' ' || c == '\U{85}' || c == '\U{A0}' || c == '\U{1680}'
    || '\U{2000}' <= c <= '\U{200A}' || c == '\U{2028}' || c == '\U{2029}' || c == '\U{202F}'
    || c == '\U{205F}' || c == '\U{3000}'
  }

  function TrimLeft(s: string): string {
    if s != [] && IsSpace(s[0]) then TrimLeft(s[1..]) else s
  }

  function TrimRight(s: string): string {
    if s != [] && IsSpace(s[|s| - 1]) then TrimRight(s[..|s| - 1]) else s
  }

  function Trim(s: string): string {
    TrimRight(TrimLeft(s))
  }

  /** The parts between slashes; there is always at least one. */
  function Split(s: string): (r: seq<string>)
    ensures |r| >= 1
  {
    if s == [] then [[]]
    else if s[0] == '/' then [[]] + Split(s[1..])
    else var r := Split(s[1..]); [[s[0]] + r[0]] + r[1..]
  }

  // ---------- numbers ----------

  /** The value of a digit, with letters for ten and more. */
  function Digit(c: char): nat {
    if '0' <= c <= '9' then c as nat - '0' as nat
    else if 'a' <= c <= 'z' then c as nat - 'a' as nat + 10
    else if 'A' <= c <= 'Z' then c as nat - 'A' as nat + 10
    else 36
  }

  /** The number that a string of digits denotes. */
  function Value(s: string, base: nat): Result<nat> {
    if s == [] then Ok(0)
    else if Digit(s[|s| - 1]) >= base then Err(InvalidComponent(s))
    else match Value(s[..|s| - 1], base)
      case Ok(n) => Ok(n * base + Digit(s[|s| - 1]))
      case Err(e) => Err(e)
  }

  ghost predicate AllBelow(s: string, base: nat) {
    forall i :: 0 <= i < |s| ==> Digit(s[i]) < base
  }

  /** Only digits of the base are read. */
  lemma {:induction false} ValueIff(s: string, base: nat)
    ensures Value(s, base).Ok? <==> AllBelow(s, base)
    decreases |s|
  {
    if s != [] {
      var front, last := s[..|s| - 1], s[|s| - 1];
      ValueIff(front, base);
      assert AllBelow(s, base) <==> AllBelow(front, base) && Digit(last) < base by {
        hide Digit;
        assert forall i :: 0 <= i < |front| ==> s[i] == front[i];
      }
    }
  }

  function Digits(s: string, base: nat): Result<nat> {
    if s == [] then Err(InvalidComponent(s)) else Value(s, base)
  }

  /** An unsigned number; its prefix says the base. */
  function Unsigned(s: string): Result<nat> {
    if |s| < 2 || s[0] != '0' then Digits(s, 10)
    else if s[1] == 'x' || s[1] == 'X' then Digits(s[2..], 16)
    else if s[1] == 'b' || s[1] == 'B' then Digits(s[2..], 2)
    else Digits(s[1..], 8)
  }

  /** What is a number, by its prefix: any digits of base 16, 2 or 8 after it, and at least one; without it, of base 10. */
  lemma UnsignedIff(s: string)
    ensures Unsigned("0x" + s).Ok? <==> s != [] && AllBelow(s, 16)
    ensures Unsigned("0b" + s).Ok? <==> s != [] && AllBelow(s, 2)
    ensures s != [] && s[0] !in "xXbB" ==> (Unsigned("0" + s).Ok? <==> AllBelow(s, 8))
    ensures s == [] || s[0] != '0' ==> (Unsigned(s).Ok? <==> s != [] && AllBelow(s, 10))
  {
    hide Value, AllBelow;
    ValueIff(s, 16);
    ValueIff(s, 2);
    ValueIff(s, 8);
    ValueIff(s, 10);
    assert ("0x" + s)[2..] == s && ("0b" + s)[2..] == s && ("0" + s)[1..] == s;
  }

  function Signed(s: string): Result<int> {
    if s != [] && s[0] == '-' then
      match Unsigned(s[1..])
      case Ok(n) => var m: int := n; Ok(-m)
      case Err(e) => Err(e)
    else
      match Unsigned(if s != [] && s[0] == '+' then s[1..] else s)
      case Ok(n) => Ok(n)
      case Err(e) => Err(e)
  }

  function DigitChar(d: nat): char
    requires d < 10
  {
    ('0' as nat + d) as char
  }

  function Decimal(n: nat): (s: string)
    ensures |s| >= 1
  {
    if n < 10 then [DigitChar(n)] else Decimal(n / 10) + [DigitChar(n % 10)]
  }

  lemma {:induction false} DecimalHasValue(n: nat)
    ensures Value(Decimal(n), 10) == Ok(n)
    decreases n
  {
    if n >= 10 {
      DecimalHasValue(n / 10);
    } else {
      assert Value([], 10) == Ok(0);
    }
  }

  lemma {:induction false} DecimalIsDigits(n: nat, i: nat)
    requires i < |Decimal(n)|
    ensures '0' <= Decimal(n)[i] <= '9'
    ensures i == 0 && n > 0 ==> Decimal(n)[0] != '0'
    decreases n
  {
    if n >= 10 && i < |Decimal(n)| - 1 {
      DecimalIsDigits(n / 10, i);
    }
  }

  lemma DecimalIsRead(n: nat)
    ensures Signed(Decimal(n)) == Ok(n)
  {
    DecimalHasValue(n);
    DecimalIsDigits(n, 0);
  }

  // ---------- components and paths ----------

  /** One component's value, with the hardened bit set if it ends in an apostrophe. */
  function ParseComponent(text: string): Result<nat> {
    var c := Trim(text);
    var hardened := c != [] && c[|c| - 1] == '\'';
    var digits := if hardened then Trim(c[..|c| - 1]) else c;
    var offset := if hardened then HARDENED else 0;
    match Signed(digits)
    case Err(_) => Err(InvalidComponent(digits))
    case Ok(n) => if n < 0 || n > MAX_UINT32 - offset then Err(OutOfRange(n, hardened)) else Ok(offset + n)
  }

  /** The components one after another, up to the first that is wrong. */
  function ParseAll(components: seq<string>): Result<Path> {
    if components == [] then Ok([])
    else match ParseAll(components[..|components| - 1])
      case Err(e) => Err(e)
      case Ok(p) => match ParseComponent(components[|components| - 1])
        case Err(e) => Err(e)
        case Ok(c) => Ok(p + [c])
  }

  function ParseFrom(root: Path, components: seq<string>): Result<Path> {
    if components == [] then Err(EmptyPath)
    else match ParseAll(components)
      case Err(e) => Err(e)
      case Ok(p) => Ok(root + p)
  }

  /** A path as the text says: absolute after "m", else below the default root. */
  function Parse(path: string): Result<Path> {
    var components := Split(path);
    if Trim(components[0]) == "" then Err(AmbiguousPath)
    else if Trim(components[0]) == "m" then ParseFrom([], components[1..])
    else ParseFrom(DEFAULT_ROOT, components)
  }

  lemma {:induction false} FirstErrorStops(components: seq<string>, i: nat)
    requires i <= |components| && ParseAll(components[..i]).Err?
    ensures ParseAll(components) == ParseAll(components[..i])
    decreases |components| - i
  {
    if i == |components| {
      assert components[..i] == components;
    } else {
      assert components[..i + 1][..i] == components[..i];
      FirstErrorStops(components, i + 1);
    }
  }

  /** Parses the components in a loop, stopping at the first error. */
  method ParseDerivationPath(path: string) returns (r: Result<Path>)
    ensures r == Parse(path)
  {
    hide ParseComponent, Split, Trim;
    var components := Split(path);
    var root := [];
    if Trim(components[0]) == "" {
      return Err(AmbiguousPath);
    } else if Trim(components[0]) == "m" {
      components := components[1..];
    } else {
      root := DEFAULT_ROOT;
    }
    if components == [] {
      return Err(EmptyPath);
    }
    var result: Path := [];
    for i := 0 to |components|
      invariant ParseAll(components[..i]) == Ok(result)
    {
      assert components[..i + 1][..i] == components[..i];
      var c := ParseComponent(components[i]);
      if c.Err? {
        FirstErrorStops(components, i + 1);
        return Err(c.error);
      }
      result := result + [c.value];
    }
    assert components[..|components|] == components;
    r := Ok(root + result);
  }

  function PrintComponent(c: nat): string {
    if c >= HARDENED then Decimal(c - HARDENED) + ['\''] else Decimal(c)
  }

  function Print(path: Path): string {
    if path == [] then "m" else Print(path[..|path| - 1]) + "/" + PrintComponent(path[|path| - 1])
  }

  method String(path: Path) returns (s: string)
    ensures s == Print(path)
  {
    s := "m";
    for i := 0 to |path|
      invariant s == Print(path[..i])
    {
      assert path[..i + 1][..i] == path[..i];
      var component, hardened := path[i], false;
      if component >= HARDENED {
        component, hardened := component - HARDENED, true;
      }
      var text := Decimal(component);
      if hardened {
        text := text + ['\''];
      }
      s := s + "/" + text;
    }
    assert path[..|path|] == path;
  }

  // ---------- parsing what was printed ----------

  lemma TrimmedAlready(s: string)
    requires s == [] || (!IsSpace(s[0]) && !IsSpace(s[|s| - 1]))
    ensures Trim(s) == s
  {
  }

  /** A printed component has no slash, and no space at either end. */
  lemma ComponentIsPlain(c: nat)
    ensures var s := PrintComponent(c);
      && |s| >= 1 && !IsSpace(s[0]) && !IsSpace(s[|s| - 1])
      && forall i :: 0 <= i < |s| ==> s[i] != '/'
  {
    var n := if c >= HARDENED then c - HARDENED else c;
    forall i | 0 <= i < |Decimal(n)| ensures '0' <= Decimal(n)[i] <= '9' {
      DecimalIsDigits(n, i);
    }
  }

  lemma ComponentRoundTrip(c: nat)
    requires c <= MAX_UINT32
    ensures ParseComponent(PrintComponent(c)) == Ok(c)
  {
    var s := PrintComponent(c);
    var n := if c >= HARDENED then c - HARDENED else c;
    var digits := Decimal(n);
    ComponentIsPlain(c);
    TrimmedAlready(s);
    DecimalIsDigits(n, 0);
    DecimalIsDigits(n, |digits| - 1);
    TrimmedAlready(digits);
    DecimalIsRead(n);
    if c >= HARDENED {
      assert s[..|s| - 1] == digits;
    }
  }

  lemma {:induction false} SplitPlain(s: string)
    requires forall i :: 0 <= i < |s| ==> s[i] != '/'
    ensures Split(s) == [s]
    decreases |s|
  {
    if s != [] {
      SplitPlain(s[1..]);
      assert [s[0]] + s[1..] == s;
    }
  }

  /** A slash and a part without slashes add one part at the end. */
  lemma {:induction false} SplitMore(s: string, t: string)
    requires forall i :: 0 <= i < |t| ==> t[i] != '/'
    ensures Split(s + "/" + t) == Split(s) + [t]
    decreases |s|
  {
    var u := s + "/" + t;
    if s == [] {
      assert u[1..] == t;
      SplitPlain(t);
    } else {
      SplitMore(s[1..], t);
      assert u[1..] == s[1..] + "/" + t;
      assert u[0] == s[0];
      var r := Split(s[1..]);
      assert (r + [t])[0] == r[0] && (r + [t])[1..] == r[1..] + [t];
    }
  }

  function PrintAll(path: Path): seq<string> {
    if path == [] then [] else PrintAll(path[..|path| - 1]) + [PrintComponent(path[|path| - 1])]
  }

  lemma {:induction false} SplitPrinted(path: Path)
    ensures Split(Print(path)) == ["m"] + PrintAll(path)
    decreases |path|
  {
    if path == [] {
      SplitPlain("m");
    } else {
      var front, last := path[..|path| - 1], path[|path| - 1];
      SplitPrinted(front);
      ComponentIsPlain(last);
      SplitMore(Print(front), PrintComponent(last));
    }
  }

  lemma ParseOneMore(components: seq<string>, t: string)
    requires ParseAll(components).Ok? && ParseComponent(t).Ok?
    ensures ParseAll(components + [t]) == Ok(ParseAll(components).value + [ParseComponent(t).value])
  {
    hide ParseComponent;
    assert (components + [t])[..|components|] == components;
  }

  lemma NothingParsed()
    ensures ParseAll([]) == Ok([])
  {
  }

  lemma {:induction false} ParsePrinted(path: Path)
    requires IsPath(path)
    ensures ParseAll(PrintAll(path)) == Ok(path) && |PrintAll(path)| == |path|
    decreases |path|
  {
    hide ParseComponent, PrintComponent, ParseAll;
    if path == [] {
      NothingParsed();
    } else {
      var front, last := path[..|path| - 1], path[|path| - 1];
      ParsePrinted(front);
      ComponentRoundTrip(last);
      ParseOneMore(PrintAll(front), PrintComponent(last));
      assert front + [last] == path;
    }
  }

  /** A printed path parses back to itself exactly if it has a component. */
  lemma PathRoundTrip(path: Path)
    requires IsPath(path)
    ensures Parse(Print(path)) == Ok(path) <==> path != []
    ensures path == [] ==> Parse(Print(path)) == Err(EmptyPath)
  {
    SplitPrinted(path);
    ParsePrinted(path);
    TrimmedAlready("m");
    assert (["m"] + PrintAll(path))[1..] == PrintAll(path);
    assert [] + path == path;
  }

  /** Printing tells different paths apart. */
  lemma PrintIsInjective(p: Path, q: Path)
    requires IsPath(p) && IsPath(q) && Print(p) == Print(q)
    ensures p == q
  {
    PathRoundTrip(p);
    PathRoundTrip(q);
  }

  // ---------- what is accepted ----------

  lemma {:induction false} ParsedIsPath(components: seq<string>)
    requires ParseAll(components).Ok?
    ensures IsPath(ParseAll(components).value) && |ParseAll(components).value| == |components|
    decreases |components|
  {
    if components != [] {
      ParsedIsPath(components[..|components| - 1]);
    }
  }

  /** Whatever is accepted, the printed form of the result parses to the same path. */
  lemma AcceptedNormalises(text: string)
    requires Parse(text).Ok?
    ensures IsPath(Parse(text).value) && Parse(text).value != []
    ensures Parse(Print(Parse(text).value)) == Parse(text)
  {
    var components := Split(text);
    if Trim(components[0]) == "m" {
      ParsedIsPath(components[1..]);
    } else {
      ParsedIsPath(components);
    }
    PathRoundTrip(Parse(text).value);
  }

  lemma {:induction false} ParsedAt(components: seq<string>, i: nat)
    requires ParseAll(components).Ok? && i < |components|
    ensures i < |ParseAll(components).value| && ParseComponent(components[i]) == Ok(ParseAll(components).value[i])
    decreases |components|
  {
    hide ParseComponent;
    var front := components[..|components| - 1];
    ParsedIsPath(front);
    if i < |front| {
      ParsedAt(front, i);
    }
  }

  /** A relative path goes below the default root, one component per part of the text. */
  lemma RelativeIsBelowRoot(text: string)
    requires Parse(text).Ok? && Trim(Split(text)[0]) != "m"
    ensures var p := Parse(text).value;
      DEFAULT_ROOT <= p && |p| == |DEFAULT_ROOT| + |Split(text)|
      && (forall i :: 0 <= i < |Split(text)| ==> ParseComponent(Split(text)[i]) == Ok(p[|DEFAULT_ROOT| + i]))
  {
    var components := Split(text);
    ParsedIsPath(components);
    forall i | 0 <= i < |components| ensures ParseComponent(components[i]) == Ok(ParseAll(components).value[i]) {
      ParsedAt(components, i);
    }
  }

  // ---------- other spellings ----------

  /** A digit for d, a letter of either case from ten on. */
  function DigitFor(d: nat, upper: bool): char
    requires d < 36
  {
    if d < 10 then ('0' as nat + d) as char
    else if upper then ('A' as nat + d - 10) as char
    else ('a' as nat + d - 10) as char
  }

  /** The number that digits, the highest first, stand for in a base. */
  function Number(digits: seq<nat>, base: nat): nat {
    if digits == [] then 0 else Number(digits[..|digits| - 1], base) * base + digits[|digits| - 1]
  }

  ghost predicate AreDigits(digits: seq<nat>, base: nat) {
    digits != [] && forall i :: 0 <= i < |digits| ==> digits[i] < base
  }

  /** The digits written out. */
  function Spelled(digits: seq<nat>, upper: bool): (s: string)
    requires forall i :: 0 <= i < |digits| ==> digits[i] < 36
    ensures |s| == |digits| && forall i :: 0 <= i < |s| ==> s[i] == DigitFor(digits[i], upper)
  {
    seq(|digits|, i requires 0 <= i < |digits| => DigitFor(digits[i], upper))
  }

  lemma DigitIsRead(d: nat, upper: bool)
    requires d < 36
    ensures Digit(DigitFor(d, upper)) == d
  {
  }

  lemma {:induction false} SpelledHasValue(digits: seq<nat>, base: nat, upper: bool)
    requires base <= 36 && forall i :: 0 <= i < |digits| ==> digits[i] < base
    ensures Value(Spelled(digits, upper), base) == Ok(Number(digits, base))
    decreases |digits|
  {
    hide DigitFor, Digit;
    if digits != [] {
      var front, last := digits[..|digits| - 1], digits[|digits| - 1];
      SpelledHasValue(front, base, upper);
      DigitIsRead(last, upper);
      assert Spelled(digits, upper)[..|digits| - 1] == Spelled(front, upper);
    }
  }

  lemma SpelledAfter(prefix: string, digits: seq<nat>, base: nat, upper: bool)
    requires base <= 36 && AreDigits(digits, base)
    ensures (prefix + Spelled(digits, upper))[|prefix|..] == Spelled(digits, upper)
    ensures Digits(Spelled(digits, upper), base) == Ok(Number(digits, base))
  {
    SpelledHasValue(digits, base, upper);
  }

  /** The prefixes 0x, 0b and 0 announce hexadecimal, binary and octal digits. */
  lemma PrefixIsRead(digits: seq<nat>, upper: bool)
    ensures AreDigits(digits, 16) ==> Unsigned("0x" + Spelled(digits, upper)) == Ok(Number(digits, 16))
    ensures AreDigits(digits, 16) ==> Unsigned("0X" + Spelled(digits, upper)) == Ok(Number(digits, 16))
    ensures AreDigits(digits, 2) ==> Unsigned("0b" + Spelled(digits, upper)) == Ok(Number(digits, 2))
    ensures AreDigits(digits, 2) ==> Unsigned("0B" + Spelled(digits, upper)) == Ok(Number(digits, 2))
    ensures AreDigits(digits, 8) ==> Unsigned("0" + Spelled(digits, upper)) == Ok(Number(digits, 8))
  {
    hide Digits, Number;
    if AreDigits(digits, 16) {
      SpelledAfter("0x", digits, 16, upper);
      SpelledAfter("0X", digits, 16, upper);
    }
    if AreDigits(digits, 2) {
      SpelledAfter("0b", digits, 2, upper);
      SpelledAfter("0B", digits, 2, upper);
    }
    if AreDigits(digits, 8) {
      SpelledAfter("0", digits, 8, upper);
      assert ("0" + Spelled(digits, upper))[1] == DigitFor(digits[0], upper);
    }
  }

  /** A sign is read; a component may not be negative, nor too large for 32 bits with its hardened bit. */
  lemma RangeIsChecked(n: nat)
    ensures n > 0 ==> ParseComponent("-" + Decimal(n)) == Err(OutOfRange(0 - n, false))
    ensures ParseComponent(Decimal(n)) == if n <= MAX_UINT32 then Ok(n) else Err(OutOfRange(n, false))
    ensures ParseComponent(Decimal(n) + "'") == if n < HARDENED then Ok(HARDENED + n) else Err(OutOfRange(n, true))
  {
    var digits := Decimal(n);
    DecimalIsDigits(n, 0);
    DecimalIsDigits(n, |digits| - 1);
    DecimalIsRead(n);
    TrimmedAlready(digits);
    TrimmedAlready("-" + digits);
    TrimmedAlready(digits + "'");
    assert ("-" + digits)[1..] == digits && (digits + "'")[..|digits|] == digits;
  }

  ghost predicate Blank(s: string) {
    forall i :: 0 <= i < |s| ==> IsSpace(s[i])
  }

  lemma {:induction false} TrimLeftBlank(l: string, s: string)
    requires Blank(l)
    ensures TrimLeft(l + s) == TrimLeft(s)
    decreases |l|
  {
    if l == [] {
      assert l + s == s;
    } else {
      assert (l + s)[1..] == l[1..] + s;
      TrimLeftBlank(l[1..], s);
    }
  }

  lemma {:induction false} TrimRightBlank(s: string, r: string)
    requires Blank(r)
    ensures TrimRight(s + r) == TrimRight(s)
    decreases |r|
  {
    if r == [] {
      assert s + r == s;
    } else {
      assert (s + r)[..|s + r| - 1] == s + r[..|r| - 1];
      TrimRightBlank(s, r[..|r| - 1]);
    }
  }

  /** Trimming the left of a text leaves what follows it alone, unless the text is blank. */
  lemma {:induction false} TrimLeftFront(s: string, r: string)
    ensures if Blank(s) then TrimLeft(s) == [] else TrimLeft(s + r) == TrimLeft(s) + r
    decreases |s|
  {
    if s != [] && IsSpace(s[0]) {
      TrimLeftFront(s[1..], r);
      assert (s + r)[1..] == s[1..] + r;
      assert Blank(s) <==> Blank(s[1..]) by {
        assert s == [s[0]] + s[1..];
      }
    }
  }

  /** White space around a component does not matter. */
  lemma SpaceIsIgnored(l: string, text: string, r: string)
    requires Blank(l) && Blank(r)
    ensures Trim(l + text + r) == Trim(text) && ParseComponent(l + text + r) == ParseComponent(text)
  {
    hide IsSpace, Signed;
    assert l + text + r == l + (text + r);
    TrimLeftBlank(l, text + r);
    TrimLeftFront(text, r);
    if Blank(text) {
      TrimLeftBlank(text + r, []);
      assert text + r + [] == text + r;
    } else {
      TrimRightBlank(TrimLeft(text), r);
    }
  }

  /** The parts with a slash between any two. */
  function Join(parts: seq<string>): string
    requires |parts| >= 1
  {
    if |parts| == 1 then parts[0] else parts[0] + "/" + Join(parts[1..])
  }

  /** The parts of a text have no slash, and joined they are the text. */
  lemma {:induction false} SplitIsJoined(s: string)
    ensures Join(Split(s)) == s
    ensures forall i, k :: 0 <= i < |Split(s)| && 0 <= k < |Split(s)[i]| ==> Split(s)[i][k] != '/'
    decreases |s|
  {
    if s != [] {
      SplitIsJoined(s[1..]);
      var r, t := Split(s[1..]), Split(s);
      assert t[1..] == if s[0] == '/' then r else r[1..];
      assert s == [s[0]] + s[1..];
    }
  }

  /** The default root is the one of the specification for Ethereum. */
  lemma DefaultRootIs()
    ensures Print(DEFAULT_ROOT) == "m/44'/60'/0'/0"
  {
    var p := DEFAULT_ROOT;
    assert Decimal(44) == "44" && Decimal(60) == "60" && Decimal(0) == "0";
    assert p[..3][..2] == p[..2] && p[..2][..1] == p[..1] && p[..1][..0] == [];
    assert Print(p[..1]) == "m/44'";
    assert Print(p[..2]) == "m/44'/60'";
    assert Print(p[..3]) == "m/44'/60'/0'";
    assert p[..4] == p;
  }
}
