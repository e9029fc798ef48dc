/** Wallet derivation paths: parsing, printing and iterating them.

    Components are 32-bit; from 2^31 on they are hardened, which the printed form marks with an apostrophe.
    Numbers are read as Go's `big.Int.SetString` does with base 0: an optional sign, a base prefix and
    underscores between digits.
 */
module DerivationPathModel {
  import opened Options

  const HARDENED := 0x8000_0000
  const TWO_TO_32 := 0x1_0000_0000

  newtype uint32 = x: int | 0 <= x < TWO_TO_32

  type Path = seq<uint32>

  const ROOT: Path := [0x8000_0000 + 44, 0x8000_0000 + 60, 0x8000_0000, 0]

  datatype PathError = EmptyPath | AmbiguousPath | InvalidComponent | OutOfRange

  datatype Parsed<T> = Ok(value: T) | Failed(error: PathError)

  // ---------- strings ----------

  /** Unicode white space. */
  predicate IsSpace(c: char) {
    var n := c as int;
    9 <= n <= 13 || n == 0x20 || n == 0x85 || n == 0xA0 || n == 0x1680 || 0x2000 <= n <= 0x200A
    || n == 0x2028 || n == 0x2029 || n == 0x202F || n == 0x205F || n == 0x3000
  }

  function TrimLeft(s: string): string {
    if s != [] && IsSpace(s[0]) then TrimLeft(s[1..]) else s
  }

  function TrimRight(s: string): string {
    if s != [] && IsSpace(s[|s| - 1]) then TrimRight(s[..|s| - 1]) else s
  }

  function TrimSpace(s: string): string {
    TrimRight(TrimLeft(s))
  }

  /** The pieces between slashes. */
  function Split(s: string): (parts: seq<string>)
    ensures parts != []
  {
    if s == [] then [[]]
    else
      var rest := Split(s[1..]);
      if s[0] == '/' then [[]] + rest else [[s[0]] + rest[0]] + rest[1..]
  }

  function HasApostrophe(s: string): bool {
    s != [] && s[|s| - 1] == '\''
  }

  // ---------- numbers ----------

  function DigitValue(c: char): nat {
    if '0' <= c <= '9' then c as int - '0' as int
    else if 'a' <= c <= 'z' then c as int - 'a' as int + 10
    else if 'A' <= c <= 'Z' then c as int - 'A' as int + 10
    else 100
  }

  /** Reads the digits of `s` after `acc`; an underscore needs a digit or a prefix before it and a digit
      after it. */
  function Digits(s: string, base: nat, acc: nat, afterDigit: bool, count: nat): Option<nat> {
    if s == [] then if afterDigit && count > 0 then Some(acc) else None
    else if s[0] == '_' then if afterDigit then Digits(s[1..], base, acc, false, count) else None
    else if DigitValue(s[0]) < base then Digits(s[1..], base, acc * base + DigitValue(s[0]), true, count + 1)
    else None
  }

  function Magnitude(s: string): Option<nat> {
    if s == "0" then Some(0)
    else if s == [] || s[0] != '0' then Digits(s, 10, 0, false, 0)
    else if s[1] == 'b' || s[1] == 'B' then Digits(s[2..], 2, 0, true, 0)
    else if s[1] == 'o' || s[1] == 'O' then Digits(s[2..], 8, 0, true, 0)
    else if s[1] == 'x' || s[1] == 'X' then Digits(s[2..], 16, 0, true, 0)
    else Digits(s[1..], 8, 0, true, 0)
  }

  function SetString(s: string): Option<int> {
    if s != [] && s[0] == '-' then
      var m := Magnitude(s[1..]);
      if m.None? then None else Some(0 - m.value as int)
    else
      Magnitude(if s != [] && s[0] == '+' then s[1..] else s)
  }

  function Decimal(n: nat): string {
    (if n < 10 then [] else Decimal(n / 10)) + [('0' as int + n % 10) as char]
  }

  // ---------- parsing and printing ----------

  function ParseComponent(s: string): Parsed<uint32> {
    ParseTrimmed(TrimSpace(s))
  }

  function ParseTrimmed(s: string): Parsed<uint32> {
    if HasApostrophe(s) then InRange(SetString(TrimSpace(s[..|s| - 1])), HARDENED) else InRange(SetString(s), 0)
  }

  /** A number added to `base`, if the sum fits. */
  function InRange(n: Option<int>, base: nat): Parsed<uint32> {
    if n.None? then Failed(InvalidComponent)
    else if n.value < 0 || n.value > TWO_TO_32 - 1 - base then Failed(OutOfRange)
    else Ok((base + n.value) as uint32)
  }

  /** The components read so far followed by those of `parts`, or the first error. */
  function ParseAll(parts: seq<string>): Parsed<Path> {
    if parts == [] then Ok([])
    else
      var before := ParseAll(parts[..|parts| - 1]);
      if before.Failed? then before
      else
        var last := ParseComponent(parts[|parts| - 1]);
        if last.Failed? then Failed(last.error) else Ok(before.value + [last.value])
  }

  function Parse(s: string): Parsed<Path> {
    var parts := Split(s);
    var first := TrimSpace(parts[0]);
    if first == [] then Failed(AmbiguousPath)
    else if first == "m" then
      if |parts| == 1 then Failed(EmptyPath) else ParseAll(parts[1..])
    else
      var rest := ParseAll(parts);
      if rest.Failed? then rest else Ok(ROOT + rest.value)
  }

  function PrintComponent(v: uint32): string {
    if v as int >= HARDENED then Decimal(v as int - HARDENED) + "'" else Decimal(v as int)
  }

  function Print(p: Path): string {
    if p == [] then "m" else Print(p[..|p| - 1]) + "/" + PrintComponent(p[|p| - 1])
  }

  // ---------- the round trip ----------

  ghost predicate Plain(s: string) {
    NoSlash(s) && forall i | 0 <= i < |s| :: !IsSpace(s[i])
  }

  ghost predicate NoSlash(s: string) {
    forall i | 0 <= i < |s| :: s[i] != '/'
  }

  lemma TrimPlain(s: string)
    requires Plain(s)
    ensures TrimSpace(s) == s
  {
  }

  ghost predicate IsDigits(s: string) {
    forall i | 0 <= i < |s| :: '0' <= s[i] <= '9'
  }

  lemma DigitsPlain(s: string)
    requires IsDigits(s)
    ensures Plain(s) && Plain(s + "'") && !HasApostrophe(s)
  {
  }

  lemma {:induction false} DecimalDigits(n: nat)
    ensures Decimal(n) != [] && IsDigits(Decimal(n))
    ensures n > 0 ==> Decimal(n)[0] != '0'
    ensures n == 0 ==> Decimal(n) == "0"
  {
    if n >= 10 {
      DecimalDigits(n / 10);
    }
  }

  /** Reading a printed number and then whatever follows it. */
  lemma {:induction false} ReadDecimal(n: nat, t: string, after: bool)
    ensures Digits(Decimal(n) + t, 10, 0, after, 0) == Digits(t, 10, n, true, |Decimal(n)|)
  {
    var d := ('0' as int + n % 10) as char;
    if n < 10 {
      assert (Decimal(n) + t)[1..] == t;
    } else {
      assert Decimal(n) + t == Decimal(n / 10) + ([d] + t);
      ReadDecimal(n / 10, [d] + t, after);
      assert ([d] + t)[1..] == t;
    }
  }

  lemma NumberRoundTrip(n: nat)
    ensures SetString(Decimal(n)) == Some(n)
  {
    DecimalDigits(n);
    var s := Decimal(n);
    if n > 0 {
      ReadDecimal(n, [], false);
      assert s + [] == s;
    }
  }

  /** A string that reads as the number `n`. */
  ghost predicate Reads(d: string, n: nat) {
    IsDigits(d) && SetString(d) == Some(n)
  }

  lemma DecimalReads(n: nat)
    ensures Reads(Decimal(n), n)
  {
    DecimalDigits(n);
    NumberRoundTrip(n);
  }

  lemma SoftComponent(d: string, n: nat)
    requires Reads(d, n) && n < TWO_TO_32
    ensures ParseComponent(d) == Ok(n as uint32) && NoSlash(d)
  {
    DigitsPlain(d);
    TrimPlain(d);
  }

  lemma HardComponent(d: string, n: nat)
    requires Reads(d, n) && n < HARDENED
    ensures ParseComponent(d + "'") == Ok((HARDENED + n) as uint32) && NoSlash(d + "'")
  {
    DigitsPlain(d);
    TrimPlain(d);
    TrimPlain(d + "'");
    assert (d + "'")[..|d|] == d;
  }

  /** A piece of a path that stands for the component `v`. */
  ghost predicate Denotes(piece: string, v: uint32) {
    ParseComponent(piece) == Ok(v) && NoSlash(piece)
  }

  lemma SoftDenotes(d: string, v: uint32)
    requires Reads(d, v as int)
    ensures Denotes(d, v)
  {
    SoftComponent(d, v as int);
  }

  lemma HardDenotes(d: string, v: uint32)
    requires HARDENED <= v as int && Reads(d, v as int - HARDENED)
    ensures Denotes(d + "'", v)
  {
    HardComponent(d, v as int - HARDENED);
  }

  lemma ComponentRoundTrip(v: uint32)
    ensures Denotes(PrintComponent(v), v)
  {
    if v as int >= HARDENED {
      DecimalReads(v as int - HARDENED);
      HardDenotes(Decimal(v as int - HARDENED), v);
    } else {
      DecimalReads(v as int);
      SoftDenotes(Decimal(v as int), v);
    }
  }

  /** Splitting what was joined with a slash. */
  lemma {:induction false} SplitJoined(a: string, b: string)
    requires NoSlash(b)
    ensures Split(a + "/" + b) == Split(a) + [b]
    decreases |a|
  {
    var s := a + "/" + b;
    if a == [] {
      SplitWhole(b);
      assert s[1..] == b;
    } else {
      SplitJoined(a[1..], b);
      assert s[1..] == a[1..] + "/" + b;
    }
  }

  lemma {:induction false} SplitWhole(b: string)
    requires NoSlash(b)
    ensures Split(b) == [b]
  {
    if b != [] {
      SplitWhole(b[1..]);
      assert [b[0]] + b[1..] == b;
    }
  }

  lemma {:induction false} PrintedSplits(p: Path)
    ensures Split(Print(p)) == ["m"] + Pieces(p)
  {
    if p == [] {
      SplitWhole("m");
    } else {
      var init, last := p[..|p| - 1], p[|p| - 1];
      PrintedSplits(init);
      ComponentRoundTrip(last);
      SplitJoined(Print(init), PrintComponent(last));
      assert ["m"] + Pieces(init) + [PrintComponent(last)] == ["m"] + (Pieces(init) + [PrintComponent(last)]);
    }
  }

  function Pieces(p: Path): seq<string> {
    if p == [] then [] else Pieces(p[..|p| - 1]) + [PrintComponent(p[|p| - 1])]
  }

  lemma ParseOneMore(parts: seq<string>, piece: string, p: Path, v: uint32)
    requires ParseAll(parts) == Ok(p) && Denotes(piece, v)
    ensures ParseAll(parts + [piece]) == Ok(p + [v])
  {
    assert (parts + [piece])[..|parts|] == parts;
  }

  lemma {:induction false} PiecesParse(pieces: seq<string>, p: Path)
    requires |pieces| == |p| && forall i | 0 <= i < |p| :: Denotes(pieces[i], p[i])
    ensures ParseAll(pieces) == Ok(p)
    decreases |p|
  {
    if p != [] {
      var k := |p| - 1;
      PiecesParse(pieces[..k], p[..k]);
      ParseOneMore(pieces[..k], pieces[k], p[..k], p[k]);
      assert pieces == pieces[..k] + [pieces[k]] && p == p[..k] + [p[k]];
    }
  }

  lemma {:induction false} PieceAt(p: Path, i: nat)
    requires i < |p|
    ensures |Pieces(p)| == |p| && Pieces(p)[i] == PrintComponent(p[i])
    decreases |p|
  {
    if |p| > 1 {
      PieceAt(p[..|p| - 1], if i < |p| - 1 then i else 0);
    }
  }

  lemma PrintedParses(p: Path)
    ensures ParseAll(Pieces(p)) == Ok(p) && |Pieces(p)| == |p|
  {
    forall i | 0 <= i < |p| ensures |Pieces(p)| == |p| && Denotes(Pieces(p)[i], p[i]) {
      PieceAt(p, i);
      ComponentRoundTrip(p[i]);
    }
    PiecesParse(Pieces(p), p);
  }

  /** Every non-empty path is what its printed form parses to; the empty one prints as a bare prefix,
      which is refused. */
  lemma RoundTrip(p: Path)
    ensures Parse(Print(p)) == if p == [] then Failed(EmptyPath) else Ok(p)
  {
    PrintedSplits(p);
    PrintedParses(p);
    TrimPlain("m");
    assert (["m"] + Pieces(p))[1..] == Pieces(p);
  }

  lemma {:induction false} ParsedLength(parts: seq<string>)
    ensures ParseAll(parts).Ok? ==> |ParseAll(parts).value| == |parts|
  {
    if parts != [] {
      ParsedLength(parts[..|parts| - 1]);
    }
  }

  /** What any accepted string stands for survives printing and parsing again. */
  lemma ReparseIsStable(s: string)
    requires Parse(s).Ok?
    ensures Parse(s).value != [] && Parse(Print(Parse(s).value)) == Parse(s)
  {
    var parts := Split(s);
    ParsedLength(parts);
    ParsedLength(parts[1..]);
    RoundTrip(Parse(s).value);
  }

  /** An absolute path is parsed alike with any white space around its pieces. */
  lemma {:induction false} SpacesIgnored(parts: seq<string>, padded: seq<string>)
    requires |parts| == |padded| && forall i | 0 <= i < |parts| :: TrimSpace(padded[i]) == TrimSpace(parts[i])
    ensures ParseAll(padded) == ParseAll(parts)
    decreases |parts|
  {
    if parts != [] {
      SpacesIgnored(parts[..|parts| - 1], padded[..|padded| - 1]);
      assert ParseComponent(padded[|parts| - 1]) == ParseComponent(parts[|parts| - 1]);
    }
  }

  // ---------- the loops ----------

  method ParseDerivationPath(path: string) returns (r: Parsed<Path>)
    ensures r == Parse(path)
  {
    var result: Path := [];
    var components := Split(path);
    var first := TrimSpace(components[0]);
    if first == [] {
      return Failed(AmbiguousPath);
    } else if first == "m" {
      components := components[1..];
    } else {
      result := ROOT;
    }
    if |components| == 0 {
      return Failed(EmptyPath);
    }
    r := ParseComponents(result, components);
    assert ParseAll(components).Ok? ==> [] + ParseAll(components).value == ParseAll(components).value;
  }

  /** Appends the components to a path, up to the first bad one. */
  method ParseComponents(base: Path, components: seq<string>) returns (r: Parsed<Path>)
    ensures r == match ParseAll(components)
                 case Ok(v) => Ok(base + v)
                 case Failed(e) => Failed(e)
  {
    var result := base;
    for i := 0 to |components|
      invariant ParseAll(components[..i]).Ok? && result == base + ParseAll(components[..i]).value
    {
      PrefixGrows(components, i);
      var value := ParseComponent(components[i]);
      if value.Failed? {
        StaysFailed(components, i + 1);
        return Failed(value.error);
      }
      result := result + [value.value];
    }
    assert components[..|components|] == components;
    r := Ok(result);
  }

  lemma PrefixGrows(parts: seq<string>, i: nat)
    requires i < |parts| && ParseAll(parts[..i]).Ok?
    ensures ParseAll(parts[..i + 1]) ==
            match ParseComponent(parts[i])
            case Ok(v) => Ok(ParseAll(parts[..i]).value + [v])
            case Failed(e) => Failed(e)
  {
    assert parts[..i + 1][..i] == parts[..i];
  }

  lemma {:induction false} StaysFailed(parts: seq<string>, i: nat)
    requires i <= |parts| && ParseAll(parts[..i]).Failed?
    ensures ParseAll(parts) == ParseAll(parts[..i])
    decreases |parts|
  {
    if i < |parts| {
      assert parts[..|parts| - 1][..i] == parts[..i];
      StaysFailed(parts[..|parts| - 1], i);
    } else {
      assert parts[..i] == parts;
    }
  }

  method PathString(path: Path) returns (result: string)
    ensures result == Print(path)
  {
    result := "m";
    for i := 0 to |path|
      invariant result == Print(path[..i])
    {
      assert path[..i + 1][..i] == path[..i];
      var component, hardened := path[i] as int, false;
      if component >= HARDENED {
        component := component - HARDENED;
        hardened := true;
      }
      var piece := Decimal(component);
      if hardened {
        piece := piece + "'";
      }
      result := result + "/" + piece;
    }
    assert path[..|path|] == path;
  }

  function Plus(v: uint32, k: int): uint32 {
    ((v as int + k) % TWO_TO_32) as uint32
  }

  /** Counts up one component of a path, wrapping around.  The path is updated in place: what earlier calls
      returned is the same array. */
  class PathIterator {
    const path: array<uint32>
    const index: nat

    ghost predicate Valid()
      reads this
    {
      index < path.Length
    }

    /** Starts one before `base`, so that the first call returns it.  The last component is counted by
        default, the third one for Ledger Live. */
    constructor (base: Path, index: nat)
      requires index < |base|
      ensures Valid() && fresh(path) && this.index == index && path[..] == base[index := Plus(base[index], -1)]
    {
      var a := new uint32[|base|](i requires 0 <= i < |base| => base[i]);
      a[index] := Plus(a[index], -1);
      path, this.index := a, index;
    }

    method Next() returns (p: array<uint32>)
      requires Valid()
      modifies path
      ensures p == path && p[..] == old(path[..])[index := Plus(old(path[index]), 1)]
    {
      path[index] := Plus(path[index], 1);
      p := path;
    }
  }

  /** The `k`-th call to an iterator over `base` returns `base` with its component raised by `k`. */
  method Iterate(base: Path, index: nat, k: nat) returns (p: array<uint32>)
    requires index < |base|
    ensures p[..] == base[index := Plus(base[index], k)]
  {
    var it := new PathIterator(base, index);
    p := it.Next();
    PlusBack(base[index], 0);
    for i := 0 to k
      invariant p == it.path && fresh(p) && it.Valid()
      invariant it.index == index && p[..] == base[index := Plus(base[index], i)]
    {
      PlusBack(base[index], i + 1);
      p := it.Next();
    }
  }

  lemma PlusBack(v: uint32, k: nat)
    ensures Plus(Plus(v, k - 1), 1) == Plus(v, k)
  {
  }
}
