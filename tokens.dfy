/**
 * The token-level reader underneath the MSH parser.
 *
 * The input file is taken as a sequence of whitespace-delimited tokens.
 * A conversion `%d` becomes ParseInt of one token, `%d.%d` becomes
 * ParseVersion, and `%s` / `%f` take one token verbatim. Every reader
 * works on a token position and returns the value it read together with
 * the position just after it.
 */
module MshTokens {

  datatype Option<+T> = None | Some(value: T)

  /** Where and why a read failed. */
  datatype ParseError =
    | UnexpectedEnd(at: nat)
    | MissingKeyword(expected: string, at: nat)
    | MalformedNumber(at: nat)

  datatype Result<+T> = Ok(value: T) | Err(error: ParseError) {
    predicate IsFailure() {
      Err?
    }

    function PropagateFailure<U>(): Result<U>
      requires Err?
    {
      Err(error)
    }

    function Extract(): T
      requires Ok?
    {
      value
    }
  }

  /** A value read from the token stream and the position just after it. */
  datatype Parsed<+T> = Parsed(value: T, next: nat)

  type Token = string

  /** How many times `for (i = 0; i < n; i++)` runs its body. */
  function LoopCount(n: int): nat {
    if n < 0 then 0 else n
  }

  // ---------------------------------------------------------------------
  // Decimal integers

  predicate IsDigit(c: char) {
    '0' <= c <= '9'
  }

  predicate AllDigits(s: string) {
    forall i :: 0 <= i < |s| ==> IsDigit(s[i])
  }

  function DigitValue(c: char): nat
    requires IsDigit(c)
  {
    (c as int - '0' as int) as nat
  }

  function DigitChar(d: nat): (c: char)
    requires d < 10
    ensures IsDigit(c) && DigitValue(c) == d
  {
    ('0' as int + d) as char
  }

  /** The value of a non-empty run of decimal digits, most significant first. */
  function ParseNat(s: string): (r: Option<nat>)
    ensures r.Some? <==> s != [] && AllDigits(s)
    decreases |s|
  {
    if s == [] || !IsDigit(s[|s| - 1]) then None
    else if |s| == 1 then Some(DigitValue(s[0]))
    else
      match ParseNat(s[..|s| - 1])
      case None => None
      case Some(v) => Some(10 * v + DigitValue(s[|s| - 1]))
  }

  /** The token without its leading sign, if it has one. */
  function Unsigned(t: Token): Token {
    if |t| > 0 && (t[0] == '-' || t[0] == '+') then t[1..] else t
  }

  /** A `%d` conversion applied to a whole token: an optional sign, then digits. */
  function ParseInt(t: Token): Option<int> {
    if |t| > 0 && t[0] == '-' then
      match ParseNat(t[1..])
      case None => None
      case Some(v) => Some(-(v as int))
    else if |t| > 0 && t[0] == '+' then
      match ParseNat(t[1..])
      case None => None
      case Some(v) => Some(v)
    else
      match ParseNat(t)
      case None => None
      case Some(v) => Some(v)
  }

  /**
   * `%d` accepts a token exactly when what follows its optional sign is a
   * non-empty run of digits, and only a leading '-' gives a negative value.
   */
  lemma ParseIntAccepts(t: Token)
    ensures ParseInt(t).Some? <==> Unsigned(t) != [] && AllDigits(Unsigned(t))
    ensures ParseInt(t).Some? ==> ParseInt(t).value < 0 ==> t[0] == '-'
  {
  }

  /** The decimal rendering of a natural number: its digits, most significant first. */
  function NatToString(n: nat): (s: string)
    ensures s != [] && AllDigits(s)
  {
    if n < 10 then [DigitChar(n)] else NatToString(n / 10) + [DigitChar(n % 10)]
  }

  /** The decimal rendering of an integer, the inverse of ParseInt. */
  function IntToString(n: int): Token {
    if n < 0 then "-" + NatToString(-n) else NatToString(n)
  }

  lemma {:induction false} NatRoundTrip(n: nat)
    ensures ParseNat(NatToString(n)) == Some(n)
  {
    if n >= 10 {
      var s := NatToString(n);
      assert s[..|s| - 1] == NatToString(n / 10);
      NatRoundTrip(n / 10);
    }
  }

  lemma IntRoundTrip(n: int)
    ensures ParseInt(IntToString(n)) == Some(n)
  {
    if n < 0 {
      assert IntToString(n)[1..] == NatToString(-n);
      NatRoundTrip(-n);
    } else {
      NatRoundTrip(n);
    }
  }

  /** A token that `%d` accepts holds no '.', so it can stand left of a version dot. */
  lemma IntTokenHasNoDot(t: Token)
    requires ParseInt(t).Some?
    ensures forall i :: 0 <= i < |t| ==> t[i] != '.'
  {
    if |t| > 0 && (t[0] == '-' || t[0] == '+') {
      assert AllDigits(t[1..]);
      forall i | 1 <= i < |t| ensures t[i] != '.' {
        assert t[i] == t[1..][i - 1];
      }
    } else {
      assert AllDigits(t);
    }
  }

  // ---------------------------------------------------------------------
  // The `major.minor` header field

  /** The index of the first '.' at or after `i`, or |t| when there is none. */
  function FindDot(t: string, i: nat): (k: nat)
    requires i <= |t|
    ensures i <= k <= |t|
    ensures k < |t| ==> t[k] == '.'
    ensures forall j :: i <= j < k ==> t[j] != '.'
    decreases |t| - i
  {
    if i == |t| || t[i] == '.' then i else FindDot(t, i + 1)
  }

  /**
   * `%d.%d` applied to one token: two integers separated by the first '.'.
   * A token without a '.' is rejected.
   */
  function ParseVersion(t: Token): (r: Option<(int, int)>)
    ensures r.Some? ==> exists k :: 0 <= k < |t| && t[k] == '.' && ParseInt(t[..k]) == Some(r.value.0)
                                     && ParseInt(t[k + 1..]) == Some(r.value.1)
    ensures (forall i :: 0 <= i < |t| ==> t[i] != '.') ==> r.None?
  {
    var k := FindDot(t, 0);
    if k == |t| then None
    else
      match (ParseInt(t[..k]), ParseInt(t[k + 1..]))
      case (Some(major), Some(minor)) => Some((major, minor))
      case _ => None
  }

  /** A `major.minor` token, each number written with the spelling `sp`. */
  function VersionToken(sp: int -> Token, major: int, minor: int): Token {
    sp(major) + "." + sp(minor)
  }

  lemma VersionRoundTrip(sp: int -> Token, major: int, minor: int)
    requires Spells(sp)
    ensures ParseVersion(VersionToken(sp, major, minor)) == Some((major, minor))
  {
    var a, t := sp(major), VersionToken(sp, major, minor);
    assert ParseInt(a) == Some(major);
    IntTokenHasNoDot(a);
    assert t[|a|] == '.';
    FindDotIsFirst(t, 0, |a|);
    assert t[..|a|] == a;
    assert t[|a| + 1..] == sp(minor);
  }

  lemma {:induction false} FindDotIsFirst(t: string, i: nat, k: nat)
    requires i <= k < |t| && t[k] == '.'
    requires forall j :: i <= j < k ==> t[j] != '.'
    ensures FindDot(t, i) == k
    decreases k - i
  {
    if i < k {
      FindDotIsFirst(t, i + 1, k);
    }
  }

  // ---------------------------------------------------------------------
  // Readers

  /** One `%d` field. */
  function ReadInt(toks: seq<Token>, pos: nat): (r: Result<Parsed<int>>)
    ensures r.Ok? <==> pos < |toks| && ParseInt(toks[pos]).Some?
    ensures r.Ok? ==> r.value.next == pos + 1 && ParseInt(toks[pos]) == Some(r.value.value)
  {
    if pos >= |toks| then Err(UnexpectedEnd(pos))
    else
      match ParseInt(toks[pos])
      case None => Err(MalformedNumber(pos))
      case Some(n) => Ok(Parsed(n, pos + 1))
  }

  /** One `%s` (or, with the number left uninterpreted, `%f`) field. */
  function ReadToken(toks: seq<Token>, pos: nat): (r: Result<Parsed<Token>>)
    ensures r.Ok? <==> pos < |toks|
    ensures r.Ok? ==> r.value == Parsed(toks[pos], pos + 1)
  {
    if pos >= |toks| then Err(UnexpectedEnd(pos)) else Ok(Parsed(toks[pos], pos + 1))
  }

  /** A `$Name` keyword line that must be present. */
  function ExpectKeyword(toks: seq<Token>, pos: nat, keyword: Token): (r: Result<nat>)
    ensures r.Ok? <==> pos < |toks| && toks[pos] == keyword
    ensures r.Ok? ==> r.value == pos + 1
  {
    if pos >= |toks| then Err(UnexpectedEnd(pos))
    else if toks[pos] != keyword then Err(MissingKeyword(keyword, pos))
    else Ok(pos + 1)
  }

  /** `%d.%d` as one token. */
  function ReadVersion(toks: seq<Token>, pos: nat): (r: Result<Parsed<(int, int)>>)
    ensures r.Ok? <==> pos < |toks| && ParseVersion(toks[pos]).Some?
    ensures r.Ok? ==> r.value.next == pos + 1 && ParseVersion(toks[pos]) == Some(r.value.value)
  {
    if pos >= |toks| then Err(UnexpectedEnd(pos))
    else
      match ParseVersion(toks[pos])
      case None => Err(MalformedNumber(pos))
      case Some(v) => Ok(Parsed(v, pos + 1))
  }

  // ---------------------------------------------------------------------
  // Repetition: the body of a `for` loop that reads one record per turn

  /** `n` records read one after the other by `f`, the first at `pos`. */
  function Repeat<T>(f: (seq<Token>, nat) -> Result<Parsed<T>>, toks: seq<Token>, pos: nat, n: nat)
    : (r: Result<Parsed<seq<T>>>)
    ensures r.Ok? ==> |r.value.value| == n
    decreases n
  {
    if n == 0 then Ok(Parsed([], pos))
    else
      match Repeat(f, toks, pos, n - 1)
      case Err(e) => Err(e)
      case Ok(Parsed(xs, p)) =>
        match f(toks, p)
        case Err(e) => Err(e)
        case Ok(Parsed(x, q)) => Ok(Parsed(xs + [x], q))
  }

  /** Once a record fails to read, every longer run fails with that same error. */
  lemma {:induction false} RepeatStops<T>(f: (seq<Token>, nat) -> Result<Parsed<T>>, toks: seq<Token>, pos: nat,
                                          n: nat, m: nat)
    requires n <= m
    requires Repeat(f, toks, pos, n).Err?
    ensures Repeat(f, toks, pos, m) == Repeat(f, toks, pos, n)
    decreases m - n
  {
    if n < m {
      RepeatStops(f, toks, pos, n, m - 1);
    }
  }

  /** One more record after a successful Repeat. */
  lemma RepeatSnoc<T>(f: (seq<Token>, nat) -> Result<Parsed<T>>, toks: seq<Token>, pos: nat, n: nat,
                      xs: seq<T>, q: nat, x: T, stop: nat)
    requires n > 0
    requires Repeat(f, toks, pos, n - 1) == Ok(Parsed(xs, q))
    requires f(toks, q) == Ok(Parsed(x, stop))
    ensures Repeat(f, toks, pos, n) == Ok(Parsed(xs + [x], stop))
  {
  }

  /** A run of `%d` fields: it succeeds exactly when each of the `k` tokens is an integer. */
  lemma {:induction false} ReadIntsAt(toks: seq<Token>, pos: nat, k: nat)
    ensures var r := Repeat(ReadInt, toks, pos, k);
            r.Ok? <==> (k == 0 || pos + k <= |toks|) && forall j :: pos <= j < pos + k ==> ParseInt(toks[j]).Some?
    ensures var r := Repeat(ReadInt, toks, pos, k);
            r.Ok? ==> r.value.next == pos + k &&
                      forall j :: 0 <= j < k ==> ParseInt(toks[pos + j]) == Some(r.value.value[j])
    decreases k
  {
    hide ParseInt, AllDigits;
    if k > 0 {
      ReadIntsAt(toks, pos, k - 1);
      var r := Repeat(ReadInt, toks, pos, k - 1);
      var allInts := pos + k <= |toks| && forall j :: pos <= j < pos + k ==> ParseInt(toks[j]).Some?;
      if allInts {
        assert ParseInt(toks[pos + k - 1]).Some?;
      }
      if r.Ok? {
        assert r.value.next == pos + k - 1;
        var last := ReadInt(toks, pos + k - 1);
        if last.Ok? {
          var xs := Repeat(ReadInt, toks, pos, k).value.value;
          assert xs == r.value.value + [last.value.value];
        }
      }
    }
  }

  /** The tokens from `pos` on are the decimal forms of `xs`, one each. */
  ghost predicate IntsAt(toks: seq<Token>, pos: nat, xs: seq<int>) {
    && pos + |xs| <= |toks|
    && forall j :: 0 <= j < |xs| ==> ParseInt(toks[pos + j]) == Some(xs[j])
  }

  /** The values of a successful run of `%d` fields, position by position. */
  lemma {:induction false} ReadIntsValues(toks: seq<Token>, pos: nat, k: nat)
    requires Repeat(ReadInt, toks, pos, k).Ok?
    ensures var r := Repeat(ReadInt, toks, pos, k).value;
            && r.next == pos + k
            && (k > 0 ==> IntsAt(toks, pos, r.value))
    decreases k
  {
    if k > 0 {
      ReadIntsValues(toks, pos, k - 1);
      var prev := Repeat(ReadInt, toks, pos, k - 1).value;
      var last := ReadInt(toks, pos + k - 1);
      assert last.Ok?;
      var xs := Repeat(ReadInt, toks, pos, k).value.value;
      assert xs == prev.value + [last.value.value];
      assert forall j :: 0 <= j < k - 1 ==> xs[j] == prev.value[j];
    }
  }

  /** Conversely, integers standing at `pos` are read back by a run of `%d` fields. */
  lemma {:induction false} ReadIntsFrom(toks: seq<Token>, pos: nat, xs: seq<int>)
    requires IntsAt(toks, pos, xs)
    ensures Repeat(ReadInt, toks, pos, |xs|) == Ok(Parsed(xs, pos + |xs|))
    decreases |xs|
  {
    if xs != [] {
      var n := |xs|;
      var init := xs[..n - 1];
      assert IntsAt(toks, pos, init) by {
        forall j | 0 <= j < |init| ensures ParseInt(toks[pos + j]) == Some(init[j]) {
          assert init[j] == xs[j];
        }
      }
      ReadIntsFrom(toks, pos, init);
      assert ParseInt(toks[pos + (n - 1)]) == Some(xs[n - 1]);
      RepeatSnoc(ReadInt, toks, pos, n, init, pos + n - 1, xs[n - 1], pos + n);
      assert init + [xs[n - 1]] == xs;
    }
  }

  /** Records laid out one after the other at every `w` tokens. */
  lemma {:induction false} RepeatFixedWidth<T>(f: (seq<Token>, nat) -> Result<Parsed<T>>, toks: seq<Token>,
                                                 pos: nat, n: nat, w: nat)
    requires forall p: nat :: f(toks, p).Ok? ==> f(toks, p).value.next == p + w
    requires Repeat(f, toks, pos, n).Ok?
    ensures Repeat(f, toks, pos, n).value.next == pos + n * w
    ensures forall i :: 0 <= i < n ==>
              f(toks, pos + i * w) == Ok(Parsed(Repeat(f, toks, pos, n).value.value[i], pos + i * w + w))
    decreases n
  {
    if n > 0 {
      RepeatFixedWidth(f, toks, pos, n - 1, w);
      var prev := Repeat(f, toks, pos, n - 1).value;
      assert prev.next == pos + (n - 1) * w;
      assert (n - 1) * w + w == n * w;
      var xs := Repeat(f, toks, pos, n).value.value;
      assert xs[..n - 1] == prev.value;
    }
  }

  /** A slice of a slice is a slice. */
  lemma SliceOfSlice(toks: seq<Token>, a: nat, b: nat, c: nat, d: nat)
    requires a <= c <= d <= b <= |toks|
    ensures toks[c..d] == toks[a..b][c - a..d - a]
  {
    assert forall k :: 0 <= k < d - c ==> toks[c..d][k] == toks[a..b][c - a..d - a][k];
  }

  /** `toks` holds `part` at `pos`. */
  ghost predicate PartAt(toks: seq<Token>, pos: nat, part: seq<Token>) {
    pos + |part| <= |toks| && toks[pos..pos + |part|] == part
  }

  /** Three parts standing one after the other each stand at their own offset. */
  lemma PartsOfPart(toks: seq<Token>, pos: nat, a: seq<Token>, b: seq<Token>, c: seq<Token>)
    requires PartAt(toks, pos, a + b + c)
    ensures PartAt(toks, pos, a) && PartAt(toks, pos + |a|, b) && PartAt(toks, pos + |a| + |b|, c)
  {
    var whole := a + b + c;
    var stop := pos + |whole|;
    SliceOfSlice(toks, pos, stop, pos, pos + |a|);
    assert whole[..|a|] == a;
    SliceOfSlice(toks, pos, stop, pos + |a|, pos + |a| + |b|);
    assert whole[|a|..|a| + |b|] == b;
    SliceOfSlice(toks, pos, stop, pos + |a| + |b|, stop);
    assert whole[|a| + |b|..] == c;
  }

  // ---------------------------------------------------------------------
  // Rendering: the inverse direction, used to state round trips

  /**
   * `sp` writes every integer as a token that `%d` reads back. The decimal
   * rendering is one such spelling; so is any with a '+' sign or leading
   * zeros.
   */
  ghost predicate Spells(sp: int -> Token) {
    forall n :: ParseInt(sp(n)) == Some(n)
  }

  lemma DecimalSpells()
    ensures Spells(IntToString)
  {
    forall n ensures ParseInt(IntToString(n)) == Some(n) {
      IntRoundTrip(n);
    }
  }

  /** The tokens of the records `xs`, one after the other, integers spelled by `sp`. */
  function RenderAll<T>(render: (int -> Token, T) -> seq<Token>, sp: int -> Token, xs: seq<T>): seq<Token>
    decreases |xs|
  {
    if xs == [] then [] else RenderAll(render, sp, xs[..|xs| - 1]) + render(sp, xs[|xs| - 1])
  }

  /** The one token of a `%d` field. */
  function IntToken(sp: int -> Token, n: int): seq<Token> {
    [sp(n)]
  }

  lemma {:induction false} RenderIntsLength(sp: int -> Token, xs: seq<int>)
    ensures |RenderAll(IntToken, sp, xs)| == |xs|
    decreases |xs|
  {
    if xs != [] {
      RenderIntsLength(sp, xs[..|xs| - 1]);
    }
  }

  /** `f` reads `x` back wherever the tokens of `x` stand. */
  ghost predicate Decodes<T>(f: (seq<Token>, nat) -> Result<Parsed<T>>, render: (int -> Token, T) -> seq<Token>,
                             sp: int -> Token, x: T) {
    forall toks: seq<Token>, p: nat {:trigger PartAt(toks, p, render(sp, x))} ::
      PartAt(toks, p, render(sp, x)) ==> f(toks, p) == Ok(Parsed(x, p + |render(sp, x)|))
  }

  lemma UseDecodes<T>(f: (seq<Token>, nat) -> Result<Parsed<T>>, render: (int -> Token, T) -> seq<Token>,
                      sp: int -> Token, x: T, toks: seq<Token>, p: nat)
    requires Decodes(f, render, sp, x)
    requires PartAt(toks, p, render(sp, x))
    ensures f(toks, p) == Ok(Parsed(x, p + |render(sp, x)|))
  {
  }

  /** Repeat reads back exactly the records whose tokens stand at `pos`. */
  lemma {:induction false} RepeatRendered<T>(f: (seq<Token>, nat) -> Result<Parsed<T>>,
                                               render: (int -> Token, T) -> seq<Token>, sp: int -> Token,
                                               toks: seq<Token>, pos: nat, xs: seq<T>)
    requires forall i :: 0 <= i < |xs| ==> Decodes(f, render, sp, xs[i])
    requires PartAt(toks, pos, RenderAll(render, sp, xs))
    ensures Repeat(f, toks, pos, |xs|) == Ok(Parsed(xs, pos + |RenderAll(render, sp, xs)|))
    decreases |xs|
  {
    if xs != [] {
      var n := |xs|;
      var init, last := xs[..n - 1], xs[n - 1];
      assert init + [last] == xs;
      var front, back := RenderAll(render, sp, init), render(sp, last);
      assert RenderAll(render, sp, xs) == front + back + [];
      PartsOfPart(toks, pos, front, back, []);
      assert forall i :: 0 <= i < |init| ==> Decodes(f, render, sp, init[i]) by {
        forall i | 0 <= i < |init| ensures Decodes(f, render, sp, init[i]) {
          assert init[i] == xs[i];
        }
      }
      RepeatRendered(f, render, sp, toks, pos, init);
      UseDecodes(f, render, sp, last, toks, pos + |front|);
      RepeatSnoc(f, toks, pos, n, init, pos + |front|, last, pos + |front| + |back|);
    }
  }
}
