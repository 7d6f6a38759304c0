/** Byte sizes with a unit: reading a size never wraps, and reads back what was printed. */
module ByteSize {
  import opened Wrappers
  import opened Decimal

  datatype Result = Ok(size: Int64) | EmptySize | NoNumber | UnknownUnit | BadNumber | Overflow

  const KiB: int := 0x400
  const MiB: int := 0x10_0000
  const GiB: int := 0x4000_0000
  const TiB: int := 0x100_0000_0000

  // byteUnits: the bytes a lower-case unit stands for.
  function Unit(name: string): (m: Option<nat>)
    ensures m.Some? ==> m.value > 0
  {
    if name == "" || name == "b" then Some(1)
    else if name == "k" || name == "kib" then Some(KiB)
    else if name == "kb" then Some(1_000)
    else if name == "m" || name == "mib" then Some(MiB)
    else if name == "mb" then Some(1_000_000)
    else if name == "g" || name == "gib" then Some(GiB)
    else if name == "gb" then Some(1_000_000_000)
    else if name == "t" || name == "tib" then Some(TiB)
    else if name == "tb" then Some(1_000_000_000_000)
    else None
  }

  // ----- spaces and letter case -----

  // unicode.IsSpace.
  predicate IsSpace(c: char) {
    var n := c as int;
    || n == 0x20 || 0x09 <= n <= 0x0d || n == 0x85 || n == 0xa0 || n == 0x1680 || 0x2000 <= n <= 0x200a
    || n == 0x2028 || n == 0x2029 || n == 0x202f || n == 0x205f || n == 0x3000
  }

  predicate Spaces(s: string) {
    forall i :: 0 <= i < |s| ==> IsSpace(s[i])
  }

  // A text that trimming leaves alone.
  predicate Tight(s: string) {
    s != "" ==> !IsSpace(s[0]) && !IsSpace(s[|s| - 1])
  }

  function TrimLeft(s: string): (t: string)
    ensures |t| <= |s| && t == s[|s| - |t|..] && Spaces(s[..|s| - |t|])
    ensures t != "" ==> !IsSpace(t[0])
  {
    if s != "" && IsSpace(s[0]) then
      var t := TrimLeft(s[1..]);
      assert s[..|s| - |t|] == [s[0]] + s[1..][..|s[1..]| - |t|];
      t
    else s
  }

  function TrimRight(s: string): (t: string)
    ensures t <= s && Spaces(s[|t|..])
    ensures t != "" ==> !IsSpace(t[|t| - 1])
  {
    if s != "" && IsSpace(s[|s| - 1]) then
      var t := TrimRight(s[..|s| - 1]);
      assert s[|t|..] == s[..|s| - 1][|t|..] + [s[|s| - 1]];
      t
    else s
  }

  function Trim(s: string): (t: string)
    ensures Tight(t)
  {
    TrimRight(TrimLeft(s))
  }

  // Trimming removes the spaces around a tight text, and nothing else.
  lemma TrimIsTight(pre: string, s: string, post: string)
    requires Spaces(pre) && Tight(s) && Spaces(post)
    ensures Trim(pre + s + post) == s
  {
    hide IsSpace, TrimLeft, TrimRight;
    if s != "" {
      TrimLeftStops(pre, s + post);
      TrimRightStops(s, post);
      assert pre + s + post == pre + (s + post);
    } else {
      SpacesVanish(pre + s + post);
    }
  }

  lemma SpacesVanish(s: string)
    requires Spaces(s)
    ensures TrimLeft(s) == ""
  {
    var t := TrimLeft(s);
    assert s[|s| - |t|..] == t;
    assert forall c :: c in t ==> IsSpace(c);
  }

  lemma {:induction false} TrimLeftStops(pre: string, rest: string)
    requires Spaces(pre) && rest != "" && !IsSpace(rest[0])
    ensures TrimLeft(pre + rest) == rest
    decreases |pre|
  {
    hide IsSpace;
    if pre == "" {
      assert pre + rest == rest;
    } else {
      assert (pre + rest)[1..] == pre[1..] + rest;
      TrimLeftStops(pre[1..], rest);
    }
  }

  lemma {:induction false} TrimRightStops(s: string, post: string)
    requires s != "" && !IsSpace(s[|s| - 1]) && Spaces(post)
    ensures TrimRight(s + post) == s
    decreases |post|
  {
    hide IsSpace;
    if post == "" {
      assert s + post == s;
    } else {
      var n := |post| - 1;
      assert (s + post)[..|s| + n] == s + post[..n];
      assert (s + post)[|s| + n] == post[n];
      TrimRightStops(s, post[..n]);
    }
  }

  // unicode.ToLower, for the letters whose lower case is ASCII: the Latin capitals, the dotted capital I
  // and the Kelvin sign. Any other letter stays outside ASCII, and so outside every unit, either way.
  function LowerChar(c: char): char {
    if 'A' <= c <= 'Z' then (c as int + 32) as char
    else if c as int == 0x130 then 'i'
    else if c as int == 0x212a then 'k'
    else c
  }

  function Lower(s: string): (t: string)
    ensures |t| == |s| && forall i :: 0 <= i < |s| ==> t[i] == LowerChar(s[i])
  {
    if s == "" then "" else [LowerChar(s[0])] + Lower(s[1..])
  }

  // ----- reading -----

  // How many digits text starts with.
  function Lead(text: string): (n: nat)
    ensures n <= |text| && AllDigits(text[..n])
    ensures n < |text| ==> !IsDigit(text[n])
  {
    if text == "" || !IsDigit(text[0]) then 0
    else
      var n := Lead(text[1..]);
      assert text[..n + 1] == [text[0]] + text[1..][..n];
      n + 1
  }

  lemma LeadIs(digits: string, rest: string)
    requires AllDigits(digits) && (rest != "" ==> !IsDigit(rest[0]))
    ensures Lead(digits + rest) == |digits|
  {
    var text := digits + rest;
    var n := Lead(text);
    assert forall i :: 0 <= i < |digits| ==> text[i] == digits[i];
    assert forall i :: 0 <= i < n ==> text[..n][i] == text[i];
    assert rest != "" ==> text[|digits|] == rest[0];
  }

  function Meaning(s: string): Result {
    var text := Trim(s);
    var i := Lead(text);
    var unit := Unit(Lower(Trim(text[i..])));
    if text == "" then EmptySize
    else if i == 0 then NoNumber
    else if unit.None? then UnknownUnit
    else Scaled(text[..i], unit.value)
  }

  // The number times its unit, refused when that would overflow.
  function Scaled(digits: string, m: nat): Result
    requires AllDigits(digits) && digits != "" && m > 0
  {
    var n := Parse(digits);
    if n.None? then BadNumber
    else
      DigitsParse(digits);
      Times(n.value, m)
  }

  function Times(n: nat, m: nat): Result
    requires m > 0
  {
    if n > MAX_INT64 / m then Overflow
    else
      FitsIffDivides(n, m);
      Ok(n * m)
  }

  lemma DigitsParse(digits: string)
    requires AllDigits(digits) && digits != ""
    ensures Parse(digits) == if Value(digits) <= MAX_INT64 then Some(Value(digits)) else None
  {
    assert IsDigit(digits[0]);
  }

  lemma MulKeepsOrder(a: nat, b: nat, m: nat)
    requires a <= b
    ensures a * m <= b * m
  {
    assert b * m == a * m + (b - a) * m;
  }

  lemma DivisionBounds(c: nat, n: nat, m: nat)
    requires m > 0
    ensures n <= c / m <==> n * m <= c
  {
    var q, r := c / m, c % m;
    assert c == q * m + r && 0 <= r < m;
    if n <= q {
      MulKeepsOrder(n, q, m);
    } else {
      MulKeepsOrder(q + 1, n, m);
      assert (q + 1) * m == q * m + m;
    }
  }

  lemma FitsIffDivides(n: nat, m: nat)
    requires m > 0
    ensures n <= MAX_INT64 / m <==> n * m <= MAX_INT64
    ensures n <= n * m
  {
    DivisionBounds(MAX_INT64, n, m);
    MulKeepsOrder(1, m, n);
  }

  // A size is read exactly when the true product fits, and is that product.
  lemma ScaledIsExact(digits: string, m: nat)
    requires AllDigits(digits) && digits != "" && m > 0
    ensures Scaled(digits, m).Ok? <==> Value(digits) * m <= MAX_INT64
    ensures Scaled(digits, m).Ok? ==> Scaled(digits, m).size == Value(digits) * m
    ensures Scaled(digits, m).Ok? || Scaled(digits, m).BadNumber? || Scaled(digits, m).Overflow?
  {
    DigitsParse(digits);
    FitsIffDivides(Value(digits), m);
  }

  method ParseByteSize(s: string) returns (r: Result)
    ensures r == Meaning(s)
  {
    hide Unit, Trim, Lower, Parse;
    var text := Trim(s);
    if text == "" {
      return EmptySize;
    }
    var i := 0;
    while i < |text| && IsDigit(text[i])
      invariant i <= |text| && AllDigits(text[..i])
    {
      i := i + 1;
    }
    assert text == text[..i] + text[i..];
    LeadIs(text[..i], text[i..]);
    var digits, unit := text[..i], Lower(Trim(text[i..]));
    if digits == "" {
      return NoNumber;
    }
    var mult := Unit(unit);
    if mult.None? {
      return UnknownUnit;
    }
    var n := Parse(digits);
    if n.None? {
      return BadNumber;
    }
    if n.value > MAX_INT64 / mult.value {
      return Overflow;
    }
    DigitsParse(digits);
    FitsIffDivides(n.value, mult.value);
    r := Ok(n.value * mult.value);
  }

  // One spelling of a size: digits, a unit in any letter case, spaces around either.
  predicate Spells(s: string, pre: string, digits: string, gap: string, name: string, post: string) {
    && s == pre + (digits + (gap + name)) + post
    && Spaces(pre) && Spaces(gap) && Spaces(post) && Tight(name)
    && digits != "" && AllDigits(digits)
    && (if name == "" then gap == "" else !IsDigit((gap + name)[0]))
  }

  lemma SpelledIsTight(digits: string, gap: string, name: string)
    requires digits != "" && AllDigits(digits) && Tight(name) && (name == "" ==> gap == "")
    ensures Tight(digits + (gap + name))
  {
    var text := digits + (gap + name);
    assert IsDigit(digits[0]) && IsDigit(digits[|digits| - 1]);
    assert text[0] == digits[0];
    assert text[|text| - 1] == if name == "" then digits[|digits| - 1] else name[|name| - 1];
  }

  lemma TrimTail(gap: string, name: string)
    requires Spaces(gap) && Tight(name)
    ensures Trim(gap + name) == name
  {
    TrimIsTight(gap, name, "");
    assert gap + name + "" == gap + name;
  }

  lemma SpelledText(s: string, pre: string, digits: string, gap: string, name: string, post: string)
    requires Spells(s, pre, digits, gap, name, post)
    ensures Trim(s) == digits + (gap + name) && Lead(Trim(s)) == |digits|
    ensures Trim(s)[|digits|..] == gap + name && Trim(gap + name) == name
  {
    hide Trim, Lead;
    SpelledIsTight(digits, gap, name);
    TrimIsTight(pre, digits + (gap + name), post);
    LeadIs(digits, gap + name);
    TrimTail(gap, name);
  }

  // A spelled size with a known unit is read as the true product of number and unit,
  // and is refused exactly when that product does not fit; nothing wraps.
  lemma NeverWraps(s: string, pre: string, digits: string, gap: string, name: string, post: string)
    requires Spells(s, pre, digits, gap, name, post) && Unit(Lower(name)).Some?
    ensures Meaning(s).Ok? <==> Value(digits) * Unit(Lower(name)).value <= MAX_INT64
    ensures Meaning(s).Ok? ==> Meaning(s).size == Value(digits) * Unit(Lower(name)).value
    ensures Meaning(s).Ok? || Meaning(s).BadNumber? || Meaning(s).Overflow?
  {
    SpelledText(s, pre, digits, gap, name, post);
    ScaledIsExact(digits, Unit(Lower(name)).value);
  }

  // The unit in powers of 1000 and 1024: a lone letter and one with "ib" are binary, one with "b" is decimal.
  lemma SpelledUnits(s: string, pre: string, digits: string, gap: string, name: string, post: string)
    requires Spells(s, pre, digits, gap, name, post) && Meaning(s).Ok?
    ensures name in {"", "b", "B"} ==> Meaning(s).size == Value(digits)
    ensures name in {"kb", "kB", "Kb", "KB"} ==> Meaning(s).size == Value(digits) * 1000
    ensures name in {"mb", "mB", "Mb", "MB"} ==> Meaning(s).size == Value(digits) * (1000 * 1000)
    ensures name in {"gb", "gB", "Gb", "GB"} ==> Meaning(s).size == Value(digits) * (1000 * 1000 * 1000)
    ensures name in {"tb", "tB", "Tb", "TB"} ==> Meaning(s).size == Value(digits) * (1000 * 1000 * 1000 * 1000)
    ensures name in {"k", "K", "kib", "KiB", "KIB"} ==> Meaning(s).size == Value(digits) * 1024
    ensures name in {"m", "M", "mib", "MiB", "MIB"} ==> Meaning(s).size == Value(digits) * (1024 * 1024)
    ensures name in {"g", "G", "gib", "GiB", "GIB"} ==> Meaning(s).size == Value(digits) * (1024 * 1024 * 1024)
    ensures name in {"t", "T", "tib", "TiB", "TIB"} ==> Meaning(s).size == Value(digits) * (1024 * 1024 * 1024 * 1024)
  {
    hide Meaning, Value, Spells, Lower, Unit;
    LetterUnits(name);
    DecimalUnits(name);
    BinaryUnits(name);
    if Unit(Lower(name)).Some? {
      NeverWraps(s, pre, digits, gap, name, post);
    }
  }

  lemma LetterUnits(name: string)
    ensures name in {"", "b", "B"} ==> Unit(Lower(name)) == Some(1)
    ensures name in {"k", "K"} ==> Unit(Lower(name)) == Some(1024)
    ensures name in {"m", "M"} ==> Unit(Lower(name)) == Some(1024 * 1024)
    ensures name in {"g", "G"} ==> Unit(Lower(name)) == Some(1024 * 1024 * 1024)
    ensures name in {"t", "T"} ==> Unit(Lower(name)) == Some(1024 * 1024 * 1024 * 1024)
  {
    assert |name| == 1 ==> Lower(name) == [LowerChar(name[0])];
  }

  lemma DecimalUnits(name: string)
    ensures name in {"kb", "kB", "Kb", "KB"} ==> Unit(Lower(name)) == Some(1000)
    ensures name in {"mb", "mB", "Mb", "MB"} ==> Unit(Lower(name)) == Some(1000 * 1000)
    ensures name in {"gb", "gB", "Gb", "GB"} ==> Unit(Lower(name)) == Some(1000 * 1000 * 1000)
    ensures name in {"tb", "tB", "Tb", "TB"} ==> Unit(Lower(name)) == Some(1000 * 1000 * 1000 * 1000)
  {
    var low := Lower(name);
    assert |name| == 2 ==> low == [LowerChar(name[0]), LowerChar(name[1])];
    if name in {"kb", "kB", "Kb", "KB"} {
      assert low == "kb";
    } else if name in {"mb", "mB", "Mb", "MB"} {
      assert low == "mb";
    } else if name in {"gb", "gB", "Gb", "GB"} {
      assert low == "gb";
    } else if name in {"tb", "tB", "Tb", "TB"} {
      assert low == "tb";
    }
  }

  lemma BinaryUnits(name: string)
    ensures name in {"kib", "KiB", "KIB"} ==> Unit(Lower(name)) == Some(1024)
    ensures name in {"mib", "MiB", "MIB"} ==> Unit(Lower(name)) == Some(1024 * 1024)
    ensures name in {"gib", "GiB", "GIB"} ==> Unit(Lower(name)) == Some(1024 * 1024 * 1024)
    ensures name in {"tib", "TiB", "TIB"} ==> Unit(Lower(name)) == Some(1024 * 1024 * 1024 * 1024)
  {
    var low := Lower(name);
    assert |name| == 3 ==> low == [LowerChar(name[0]), LowerChar(name[1]), LowerChar(name[2])];
    if name in {"kib", "KiB", "KIB"} {
      assert low == "kib";
    } else if name in {"mib", "MiB", "MIB"} {
      assert low == "mib";
    } else if name in {"gib", "GiB", "GIB"} {
      assert low == "gib";
    } else if name in {"tib", "TiB", "TIB"} {
      assert low == "tib";
    }
  }

  // A text is empty exactly when it is nothing but spaces, and has no number exactly when something else than a
  // digit comes first behind them.
  lemma EmptyOrNoNumberIff(s: string, pre: string, rest: string)
    requires s == pre + rest && Spaces(pre) && (rest != "" ==> !IsSpace(rest[0]))
    ensures Meaning(s).EmptySize? <==> rest == ""
    ensures Meaning(s).NoNumber? <==> rest != "" && !IsDigit(rest[0])
  {
    hide IsSpace, TrimLeft, TrimRight;
    if rest == "" {
      SpacesVanish(s);
      NoSpaceAtEnd("");
    } else {
      TrimLeftStops(pre, rest);
      StartsAlike(rest);
    }
  }

  lemma StartsAlike(rest: string)
    requires rest != "" && !IsSpace(rest[0])
    ensures TrimRight(rest) != "" && TrimRight(rest)[0] == rest[0]
  {
    assert rest[0..] == rest;
  }

  // What trimming took away, on both sides.
  lemma TrimSplits(s: string) returns (pre: string, post: string)
    ensures s == pre + Trim(s) + post && Spaces(pre) && Spaces(post)
  {
    hide TrimLeft, TrimRight;
    var left := TrimLeft(s);
    var text := Trim(s);
    pre, post := s[..|s| - |left|], left[|text|..];
    assert s == pre + left && left == text + post;
  }

  // The tail of a tight text is tight at its right end, so trimming it takes from the left only.
  lemma TailSplits(rest: string) returns (gap: string)
    requires rest != "" ==> !IsSpace(rest[|rest| - 1])
    ensures rest == gap + Trim(rest) && Spaces(gap)
    ensures Trim(rest) == "" ==> gap == ""
  {
    hide IsSpace, TrimLeft, TrimRight, Spaces;
    var left := TrimLeft(rest);
    gap := rest[..|rest| - |left|];
    assert rest == gap + left;
    NoSpaceAtEnd(rest);
    if left == "" {
      assert gap == rest;
    } else {
      assert left[|left| - 1] == rest[|rest| - 1];
      TrimRightStops(left, "");
      assert left + "" == left;
    }
  }

  lemma NoSpaceAtEnd(s: string)
    requires s != "" ==> !IsSpace(s[|s| - 1])
    ensures Spaces(s) <==> s == ""
    ensures TrimRight("") == "" && Spaces("")
  {
    hide IsSpace;
  }

  lemma MeaningIsScaled(s: string)
    requires Meaning(s).Ok?
    ensures Lead(Trim(s)) > 0 && Unit(Lower(Trim(Trim(s)[Lead(Trim(s))..]))).Some?
    ensures Meaning(s) == Scaled(Trim(s)[..Lead(Trim(s))], Unit(Lower(Trim(Trim(s)[Lead(Trim(s))..]))).value)
  {
    hide Unit, Trim, Lower, Lead, Scaled;
  }

  // Only such spellings are read.
  lemma OnlySpellingsParse(s: string) returns (pre: string, digits: string, gap: string, name: string, post: string)
    requires Meaning(s).Ok?
    ensures Spells(s, pre, digits, gap, name, post) && Unit(Lower(name)).Some?
    ensures Meaning(s).size == Value(digits) * Unit(Lower(name)).value
  {
    hide Unit, Trim, Lower, Lead, Scaled, Meaning;
    MeaningIsScaled(s);
    pre, post := TrimSplits(s);
    var text := Trim(s);
    var i := Lead(text);
    digits, name := text[..i], Trim(text[i..]);
    assert text[i..] != "" ==> text[i..][|text| - i - 1] == text[|text| - 1];
    gap := TailSplits(text[i..]);
    ScaledIsExact(digits, Unit(Lower(name)).value);
    assert text == digits + (gap + name);
    assert gap + name != "" ==> (gap + name)[0] == text[i];
  }

  // ----- printing -----

  const UNITS: seq<(int, string)> := [(TiB, "TiB"), (GiB, "GiB"), (MiB, "MiB"), (KiB, "KiB"), (1, "B")]

  // The first unit from k on that divides b exactly.
  function Best(b: nat, k: nat): (u: nat)
    requires k < |UNITS|
    ensures k <= u < |UNITS| && b % UNITS[u].0 == 0 && (UNITS[u].0 <= b || u == |UNITS| - 1)
    ensures forall j :: k <= j < u ==> !(UNITS[j].0 <= b && b % UNITS[j].0 == 0)
    decreases |UNITS| - k
  {
    if k == |UNITS| - 1 || (b >= UNITS[k].0 && b % UNITS[k].0 == 0) then k else Best(b, k + 1)
  }

  function Text(b: Int64): string {
    if b < 0 then Format(b) + "B"
    else
      var u := UNITS[Best(b, 0)];
      Format(b / u.0) + u.1
  }

  method String(b: Int64) returns (s: string)
    ensures s == Text(b)
  {
    if b < 0 {
      return Format(b) + "B";
    }
    for k := 0 to |UNITS| - 1
      invariant Best(b, 0) == Best(b, k)
    {
      if b >= UNITS[k].0 && b % UNITS[k].0 == 0 {
        return Format(b / UNITS[k].0) + UNITS[k].1;
      }
    }
    s := Format(b) + "B";
  }

  // Printed in the largest binary unit that fits and divides it, TiB down to KiB, else in bytes.
  lemma PrintedInLargestUnit(b: Int64)
    ensures var k, m, g, t := 1024, 1024 * 1024, 1024 * 1024 * 1024, 1024 * 1024 * 1024 * 1024;
            Text(b) == if b >= t && b % t == 0 then Format(b / t) + "TiB"
                       else if b >= g && b % g == 0 then Format(b / g) + "GiB"
                       else if b >= m && b % m == 0 then Format(b / m) + "MiB"
                       else if b >= k && b % k == 0 then Format(b / k) + "KiB"
                       else Format(b) + "B"
  {
    hide Format;
    if b >= 0 {
      var u := Best(b, 0);
      assert u == 0 || u == 1 || u == 2 || u == 3 || u == 4;
    }
  }

  lemma PrintedUnit(u: nat)
    requires u < |UNITS|
    ensures Unit(Lower(UNITS[u].1)) == Some(UNITS[u].0) && Tight(UNITS[u].1) && UNITS[u].1 != ""
    ensures !IsDigit(UNITS[u].1[0])
  {
    var low := Lower(UNITS[u].1);
    assert u == 0 ==> low == "tib";
    assert u == 1 ==> low == "gib";
    assert u == 2 ==> low == "mib";
    assert u == 3 ==> low == "kib";
    assert u == 4 ==> low == "b";
  }

  lemma SpellingStarts(s: string, pre: string, digits: string, gap: string, name: string, post: string)
    requires Spells(s, pre, digits, gap, name, post)
    ensures s != "" && (IsDigit(s[0]) || IsSpace(s[0]))
  {
    assert s[0] == if pre == "" then digits[0] else pre[0];
  }

  // A minus sign is not a number here.
  lemma NegativeIsRefused(s: string)
    requires s != "" && s[0] == '-'
    ensures !Meaning(s).Ok?
  {
    hide Unit, Trim, Lower, Lead, Scaled, Meaning;
    if Meaning(s).Ok? {
      var pre, digits, gap, name, post := OnlySpellingsParse(s);
      SpellingStarts(s, pre, digits, gap, name, post);
    }
  }

  lemma ReadsBack(b: nat, k: nat)
    requires b <= MAX_INT64 && k < |UNITS| && b % UNITS[k].0 == 0
    ensures Meaning(Digits(b / UNITS[k].0) + UNITS[k].1) == Ok(b)
  {
    hide Unit, Trim, Lower, Lead, Scaled, Meaning, Digits, Value;
    var m, name := UNITS[k].0, UNITS[k].1;
    var digits := Digits(b / m);
    PrintedUnit(k);
    ValueOfDigits(b / m);
    assert "" + (digits + ("" + name)) + "" == digits + name;
    NeverWraps(digits + name, "", digits, "", name, "");
    assert b / m * m == b;
  }

  // Reading what was printed gives the size back, for exactly the sizes that are not negative.
  lemma RoundTrip(b: Int64)
    ensures Meaning(Text(b)) == Ok(b) <==> b >= 0
  {
    hide Unit, Trim, Lower, Lead, Scaled, Meaning, Digits, Best;
    if b >= 0 {
      ReadsBack(b, Best(b, 0));
    } else {
      NegativeIsRefused(Text(b));
    }
  }
}
