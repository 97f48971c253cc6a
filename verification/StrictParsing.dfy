/** The strict integer and mat-size options of the configuration file. */
module StrictParsing {
  import opened Common

  /** Text as C sees it: the terminator cannot occur inside. */
  type CString = s: string | '\0' !in s

  /** The character under a cursor; past the end it is the terminator. */
  function At(s: CString, i: nat): char {
    if i < |s| then s[i] else '\0'
  }

  predicate IsSpace(c: char) {
    c == ' ' || '\t' <= c <= '\r'
  }

  predicate IsDigit(c: char) {
    '0' <= c <= '9'
  }

  predicate Spaces(w: string) {
    forall i :: 0 <= i < |w| ==> IsSpace(w[i])
  }

  predicate Digits(d: string) {
    forall i :: 0 <= i < |d| ==> IsDigit(d[i])
  }

  /** The number a digit run denotes. */
  function Value(d: string): nat
    requires Digits(d)
  {
    if d == "" then 0 else Value(d[..|d| - 1]) * 10 + (d[|d| - 1] - '0') as nat
  }

  /** The first position from i on that is not a space. */
  function SkipSpaces(s: CString, i: nat): (j: nat)
    requires i <= |s|
    ensures i <= j <= |s| && Spaces(s[i..j]) && !IsSpace(At(s, j))
    decreases |s| - i
  {
    if i < |s| && IsSpace(s[i]) then SkipSpaces(s, i + 1) else i
  }

  /** The first position from i on that is not a digit. */
  function SkipDigits(s: CString, i: nat): (j: nat)
    requires i <= |s|
    ensures i <= j <= |s| && Digits(s[i..j]) && !IsDigit(At(s, j))
    decreases |s| - i
  {
    if i < |s| && IsDigit(s[i]) then SkipDigits(s, i + 1) else i
  }

  /** The number read from position i, after spaces, and where it ends. */
  function Token(s: CString, i: nat): (r: Option<(nat, nat)>)
    requires i <= |s|
    ensures r.Some? ==> r.value.0 <= UINT64_MAX && i < r.value.1 <= |s|
  {
    var a := SkipSpaces(s, i);
    var b := SkipDigits(s, a);
    if a == b || Value(s[a..b]) > UINT64_MAX then None else Some((Value(s[a..b]), b))
  }

  function PositiveInteger(s: CString): Option<nat> {
    match Token(s, 0)
    case None => None
    case Some((n, i)) => if n > 0 && SkipSpaces(s, i) == |s| then Some(n) else None
  }

  function MatSize(s: CString): Option<(nat, nat)> {
    match Token(s, 0)
    case None => None
    case Some((rows, i)) =>
      var j := SkipSpaces(s, i);
      if rows == 0 || (At(s, j) != 'x' && At(s, j) != 'X') then None
      else
        match Token(s, j + 1)
        case None => None
        case Some((columns, k)) =>
          if columns > 0 && SkipSpaces(s, k) == |s| then Some((rows, columns)) else None
  }

  /** The characters the C library counts as spaces and digits, one by one. */
  lemma CharacterClasses(c: char)
    ensures IsSpace(c) <==> c in {' ', '\t', '\n', '\U{0B}', '\U{0C}', '\r'}
    ensures IsDigit(c) <==> c in {'0', '1', '2', '3', '4', '5', '6', '7', '8', '9'}
  {}

  // ---------------------------------------------------------------- the parsers

  method SkipWhitespace(s: CString, start: nat) returns (cursor: nat)
    requires start <= |s|
    ensures cursor == SkipSpaces(s, start)
  {
    cursor := start;
    while At(s, cursor) != '\0' && IsSpace(At(s, cursor))
      invariant start <= cursor <= |s| && SkipSpaces(s, cursor) == SkipSpaces(s, start)
      decreases |s| - cursor
    {
      cursor := cursor + 1;
    }
  }

  lemma ValueStep(s: CString, a: nat, i: nat)
    requires a <= i < |s| && Digits(s[a..i + 1])
    ensures Digits(s[a..i]) && Value(s[a..i + 1]) == Value(s[a..i]) * 10 + (s[i] - '0') as nat
  {
    assert s[a..i + 1][..i - a] == s[a..i];
  }

  lemma {:induction false} ValueGrows(s: CString, a: nat, i: nat, j: nat)
    requires a <= i <= j <= |s| && Digits(s[a..j])
    ensures Digits(s[a..i]) && Value(s[a..i]) <= Value(s[a..j])
    decreases j
  {
    if i < j {
      ValueStep(s, a, j - 1);
      ValueGrows(s, a, i, j - 1);
    }
  }

  lemma OverflowTest(parsed: nat, digit: nat)
    requires digit <= 9
    ensures parsed > (UINT64_MAX - digit) / 10 <==> parsed * 10 + digit > UINT64_MAX
  {}

  lemma EmptyRun()
    ensures Value("") == 0
  {}

  /** A digit run is accepted exactly when its value fits, and the overflow test never
      computes a value that does not. */
  method ParseUnsignedToken(s: CString, start: nat) returns (ok: bool, cursor: nat, result: nat)
    requires start <= |s|
    ensures ok <==> Token(s, start).Some?
    ensures ok ==> Token(s, start) == Some((result, cursor))
  {
    hide SkipSpaces, IsSpace, Value;
    EmptyRun();
    cursor := SkipWhitespace(s, start);
    result := 0;
    if !IsDigit(At(s, cursor)) {
      return false, cursor, 0;
    }
    ghost var a := cursor;
    assert s[a..a] == "";
    ghost var b := SkipDigits(s, a);
    while IsDigit(At(s, cursor))
      invariant a <= cursor <= b && SkipDigits(s, cursor) == b
      invariant Digits(s[a..cursor]) && result == Value(s[a..cursor]) <= UINT64_MAX
      decreases |s| - cursor
    {
      var digit := (At(s, cursor) - '0') as nat;
      assert s[a..cursor + 1] == s[a..cursor] + [s[cursor]];
      ValueStep(s, a, cursor);
      ValueGrows(s, a, cursor + 1, b);
      OverflowTest(result, digit);
      if result > (UINT64_MAX - digit) / 10 {
        return false, cursor, result;
      }
      result := result * 10 + digit;
      cursor := cursor + 1;
    }
    ok := true;
  }

  method ParseStrictPositiveUint64(s: CString) returns (r: Option<nat>)
    ensures r == PositiveInteger(s)
  {
    hide Token, SkipSpaces, IsSpace;
    var ok, cursor, result := ParseUnsignedToken(s, 0);
    if !ok {
      return None;
    }
    cursor := SkipWhitespace(s, cursor);
    r := if At(s, cursor) == '\0' && result > 0 then Some(result) else None;
  }

  method ParseStrictMatSize(s: CString) returns (r: Option<(nat, nat)>)
    ensures r == MatSize(s)
  {
    hide Token, SkipSpaces, IsSpace;
    var ok, cursor, rows := ParseUnsignedToken(s, 0);
    if !ok || rows == 0 {
      return None;
    }
    cursor := SkipWhitespace(s, cursor);
    if At(s, cursor) != 'x' && At(s, cursor) != 'X' {
      return None;
    }
    var columns;
    ok, cursor, columns := ParseUnsignedToken(s, cursor + 1);
    if !ok || columns == 0 {
      return None;
    }
    cursor := SkipWhitespace(s, cursor);
    r := if At(s, cursor) == '\0' then Some((rows, columns)) else None;
  }

  // ---------------------------------------------------------------- the language they accept

  lemma SpacesEnd(s: CString, i: nat, j: nat)
    requires i <= j <= |s| && Spaces(s[i..j]) && !IsSpace(At(s, j))
    ensures SkipSpaces(s, i) == j
  {
    hide SkipSpaces;
  }

  lemma DigitsEnd(s: CString, i: nat, j: nat)
    requires i <= j <= |s| && Digits(s[i..j]) && !IsDigit(At(s, j))
    ensures SkipDigits(s, i) == j
  {
    hide SkipDigits;
  }

  /** Spaces up to a and a digit run up to b read as one number. */
  lemma TokenRead(s: CString, i: nat, a: nat, b: nat)
    requires i <= a < b <= |s| && Spaces(s[i..a]) && Digits(s[a..b]) && !IsDigit(At(s, b))
    ensures Token(s, i) == if Value(s[a..b]) > UINT64_MAX then None else Some((Value(s[a..b]), b))
  {
    hide Value, SkipSpaces, SkipDigits;
    assert s[a] == s[a..b][0];
    SpacesEnd(s, i, a);
    DigitsEnd(s, a, b);
  }

  predicate InRange(d: string)
    requires Digits(d)
  {
    0 < Value(d) <= UINT64_MAX
  }

  /** A mat size read by positions: a number up to b, a separator at j, a number up to e. */
  lemma MatSizeAt(s: CString, a: nat, b: nat, j: nat, c: nat, e: nat)
    requires a < b <= j < c < e <= |s|
    requires Spaces(s[0..a]) && Digits(s[a..b]) && Spaces(s[b..j]) && (s[j] == 'x' || s[j] == 'X')
    requires Spaces(s[j + 1..c]) && Digits(s[c..e]) && Spaces(s[e..])
    ensures MatSize(s) == if InRange(s[a..b]) && InRange(s[c..e]) then Some((Value(s[a..b]), Value(s[c..e]))) else None
  {
    hide Value, Token, SkipSpaces;
    assert b < j ==> At(s, b) == s[b..j][0];
    TokenRead(s, 0, a, b);
    SpacesEnd(s, b, j);
    assert e < |s| ==> At(s, e) == s[e..][0];
    TokenRead(s, j + 1, c, e);
    assert s[e..|s|] == s[e..];
    SpacesEnd(s, e, |s|);
  }

  /** Every spelling of a mat size is accepted exactly when both numbers are positive and fit,
      with the numbers it spells. */
  lemma MatSizeRead(w0: CString, d0: CString, w1: CString, x: char, w2: CString, d1: CString, w3: CString)
    requires Spaces(w0) && Spaces(w1) && Spaces(w2) && Spaces(w3)
    requires Digits(d0) && d0 != "" && Digits(d1) && d1 != "" && (x == 'x' || x == 'X')
    ensures MatSize(w0 + d0 + w1 + [x] + w2 + d1 + w3) == if InRange(d0) && InRange(d1) then Some((Value(d0), Value(d1))) else None
  {
    hide MatSize, Value, Spaces, Digits;
    var s := w0 + d0 + w1 + [x] + w2 + d1 + w3;
    var a := |w0|;
    var b := a + |d0|;
    var j := b + |w1|;
    var c := j + 1 + |w2|;
    var e := c + |d1|;
    assert s[0..a] == w0;
    assert s[a..b] == d0;
    assert s[b..j] == w1;
    assert s[j] == x;
    assert s[j + 1..c] == w2;
    assert s[c..e] == d1;
    assert s[e..] == w3;
    MatSizeAt(s, a, b, j, c, e);
  }

  /** A positive integer option, likewise. */
  lemma PositiveIntegerRead(w0: CString, d: CString, w1: CString)
    requires Spaces(w0) && Spaces(w1) && Digits(d) && d != ""
    ensures PositiveInteger(w0 + d + w1) == if InRange(d) then Some(Value(d)) else None
  {
    hide Token, SkipSpaces, Value;
    var s := w0 + d + w1;
    var a := |w0|;
    var b := a + |d|;
    assert s[0..a] == w0;
    assert s[a..b] == d;
    assert s[b..|s|] == w1;
    assert b < |s| ==> At(s, b) == w1[0];
    TokenRead(s, 0, a, b);
    SpacesEnd(s, b, |s|);
  }

  lemma TokenParts(s: CString, i: nat) returns (w: CString, d: CString)
    requires i <= |s| && Token(s, i).Some?
    ensures Spaces(w) && Digits(d) && d != ""
    ensures Token(s, i).value.0 == Value(d) && s[i..Token(s, i).value.1] == w + d
  {
    var a := SkipSpaces(s, i);
    var b := SkipDigits(s, a);
    w, d := s[i..a], s[a..b];
  }

  /** Nothing else is accepted: a text that parses is one of those spellings. */
  lemma MatSizeOnly(s: CString)
    returns (w0: CString, d0: CString, w1: CString, x: char, w2: CString, d1: CString, w3: CString)
    requires MatSize(s).Some?
    ensures Spaces(w0) && Spaces(w1) && Spaces(w2) && Spaces(w3)
    ensures Digits(d0) && d0 != "" && Digits(d1) && d1 != "" && (x == 'x' || x == 'X')
    ensures s == w0 + d0 + w1 + [x] + w2 + d1 + w3
    ensures MatSize(s) == Some((Value(d0), Value(d1)))
  {
    hide Token, SkipSpaces, Value;
    w0, d0 := TokenParts(s, 0);
    var i := Token(s, 0).value.1;
    var j := SkipSpaces(s, i);
    w1, x := s[i..j], s[j];
    w2, d1 := TokenParts(s, j + 1);
    var k := Token(s, j + 1).value.1;
    w3 := s[k..];
    assert s[..i] == s[0..i] == w0 + d0;
    assert s[..j] == s[..i] + s[i..j];
    assert s[..j + 1] == s[..j] + [s[j]];
    assert s[..k] == s[..j + 1] + s[j + 1..k];
    assert s == s[..k] + s[k..];
    assert s[..k] == w0 + d0 + w1 + [x] + w2 + d1;
    assert w3 == s[k..SkipSpaces(s, k)];
  }

  lemma PositiveIntegerOnly(s: CString) returns (w0: CString, d: CString, w1: CString)
    requires PositiveInteger(s).Some?
    ensures Spaces(w0) && Spaces(w1) && Digits(d) && d != "" && InRange(d)
    ensures s == w0 + d + w1 && PositiveInteger(s) == Some(Value(d))
  {
    hide Token, SkipSpaces, Value;
    w0, d := TokenParts(s, 0);
    var i := Token(s, 0).value.1;
    w1 := s[i..];
    assert s[..i] == s[0..i] == w0 + d;
    assert s == s[..i] + s[i..];
    assert w1 == s[i..SkipSpaces(s, i)];
  }

  // ---------------------------------------------------------------- round trip

  function Decimal(n: nat): (d: CString)
    ensures Digits(d) && d != ""
  {
    var last := [('0' as int + n % 10) as char];
    if n < 10 then last else Decimal(n / 10) + last
  }

  lemma {:induction false} DecimalValue(n: nat)
    ensures Value(Decimal(n)) == n
  {
    var last := ('0' as int + n % 10) as char;
    var d := Decimal(n);
    assert d[|d| - 1] == last;
    if n < 10 {
      assert d[..|d| - 1] == "";
    } else {
      DecimalValue(n / 10);
      assert d[..|d| - 1] == Decimal(n / 10);
    }
  }

  /** Any spacing of "r x c" parses back to exactly r and c. */
  lemma MatSizeRoundTrip(r: nat, c: nat, w0: CString, w1: CString, x: char, w2: CString, w3: CString)
    requires 0 < r <= UINT64_MAX && 0 < c <= UINT64_MAX
    requires Spaces(w0) && Spaces(w1) && Spaces(w2) && Spaces(w3) && (x == 'x' || x == 'X')
    ensures MatSize(w0 + Decimal(r) + w1 + [x] + w2 + Decimal(c) + w3) == Some((r, c))
  {
    hide MatSize, Value, Decimal;
    DecimalValue(r);
    DecimalValue(c);
    MatSizeRead(w0, Decimal(r), w1, x, w2, Decimal(c), w3);
  }
}
