/** String operations of the .NET base library that the console relies on.
    Every comparison here is ordinal: the culture-sensitive variants the
    program calls are modelled by their ordinal counterparts. */
module Text {

  /** Stands for a .NET reference that may be `null`. */
  datatype Option<+T> = None | Some(value: T)

  /** Ordinal `String.StartsWith`. */
  predicate StartsWith(s: string, prefix: string) {
    |prefix| <= |s| && s[..|prefix|] == prefix
  }

  /** Ordinal `String.EndsWith`. */
  predicate EndsWith(s: string, suffix: string) {
    |suffix| <= |s| && s[|s| - |suffix|..] == suffix
  }

  /** Every character of `s` is `c`. */
  predicate AllOf(s: string, c: char) {
    forall i :: 0 <= i < |s| ==> s[i] == c
  }

  /** `String.TrimStart(c)`: what is left after dropping every leading `c`. */
  function TrimStart(s: string, c: char): (r: string)
    ensures |r| <= |s|
    ensures r == [] || r[0] != c
  {
    if s != [] && s[0] == c then TrimStart(s[1..], c) else s
  }

  /** What `TrimStart` drops is a run of `c`, and what it keeps is the rest. */
  lemma {:induction false} TrimStartShape(s: string, c: char)
    ensures var r := TrimStart(s, c);
      r == s[|s| - |r|..] && AllOf(s[..|s| - |r|], c)
  {
    if s != [] && s[0] == c {
      TrimStartShape(s[1..], c);
      var r := TrimStart(s[1..], c);
      assert s[..|s| - |r|] == [c] + s[1..][..|s| - 1 - |r|];
    }
  }

  /** `String.TrimEnd(c)`: what is left after dropping every trailing `c`. */
  function TrimEnd(s: string, c: char): (r: string)
    ensures |r| <= |s|
    ensures r == [] || r[|r| - 1] != c
  {
    if s != [] && s[|s| - 1] == c then TrimEnd(s[..|s| - 1], c) else s
  }

  /** What `TrimEnd` drops is a run of `c`, and what it keeps is the rest. */
  lemma {:induction false} TrimEndShape(s: string, c: char)
    ensures var r := TrimEnd(s, c);
      r == s[..|r|] && AllOf(s[|r|..], c)
  {
    if s != [] && s[|s| - 1] == c {
      TrimEndShape(s[..|s| - 1], c);
      var r := TrimEnd(s[..|s| - 1], c);
      assert s[|r|..] == s[..|s| - 1][|r|..] + [c];
    }
  }

  /** `String.Trim(c)`: the result neither starts nor ends with `c`. */
  function Trim(s: string, c: char): (r: string)
    ensures |r| <= |s|
    ensures r == [] || (r[0] != c && r[|r| - 1] != c)
  {
    var t := TrimStart(s, c);
    TrimEndShape(t, c);
    TrimEnd(t, c)
  }

  /** `s` is the result of `Trim` with runs of `c` around it. */
  lemma TrimShape(s: string, c: char)
    ensures var k := |s| - |TrimStart(s, c)|; var r := Trim(s, c);
      k + |r| <= |s| && r == s[k..k + |r|] && AllOf(s[..k], c) && AllOf(s[k + |r|..], c)
  {
    var t := TrimStart(s, c);
    TrimStartShape(s, c);
    TrimEndShape(t, c);
    var r := TrimEnd(t, c);
    assert Trim(s, c) == r;
    var k := |s| - |t|;
    assert t == s[k..];
    assert r == t[..|r|];
    assert s[k..k + |r|] == t[..|r|];
    assert t[|r|..] == s[k + |r|..];
  }

  lemma {:induction false} TrimStartOfPadded(a: string, t: string, c: char)
    requires AllOf(a, c)
    requires t == [] || t[0] != c
    ensures TrimStart(a + t, c) == t
  {
    if a != [] {
      assert (a + t)[1..] == a[1..] + t;
      TrimStartOfPadded(a[1..], t, c);
    }
  }

  lemma {:induction false} TrimEndOfPadded(t: string, b: string, c: char)
    requires AllOf(b, c)
    requires t == [] || t[|t| - 1] != c
    ensures TrimEnd(t + b, c) == t
  {
    if b != [] {
      assert (t + b)[..|t + b| - 1] == t + b[..|b| - 1];
      TrimEndOfPadded(t, b[..|b| - 1], c);
    }
  }

  /** The decomposition of `Trim` is unique: whenever `s` is `m` wrapped in
      runs of `c` and `m` is not itself wrapped in `c`, trimming gives `m`. */
  lemma {:induction false} TrimUnique(a: string, m: string, b: string, c: char)
    requires AllOf(a, c) && AllOf(b, c)
    requires m == [] || (m[0] != c && m[|m| - 1] != c)
    ensures Trim(a + m + b, c) == m
  {
    if m == [] {
      assert a + m + b == (a + b) + [];
      assert AllOf(a + b, c);
      TrimStartOfPadded(a + b, [], c);
    } else {
      assert a + m + b == a + (m + b);
      TrimStartOfPadded(a, m + b, c);
      TrimEndOfPadded(m, b, c);
    }
  }

  /** Trimming twice trims no more than trimming once. */
  lemma TrimIdempotent(s: string, c: char)
    ensures Trim(Trim(s, c), c) == Trim(s, c)
  {
    var m := Trim(s, c);
    assert [] + m + [] == m;
    TrimUnique([], m, [], c);
  }

  /** `String.Split(c)`: the pieces between occurrences of `c`, in order. */
  function Split(s: string, c: char): (r: seq<string>)
    ensures |r| >= 1
  {
    if s == [] then [[]]
    else
      var rest := Split(s[1..], c);
      if s[0] == c then [[]] + rest
      else [[s[0]] + rest[0]] + rest[1..]
  }

  /** No piece holds the separator; there is one piece exactly when the
      separator does not occur, and then it is the whole text. */
  lemma {:induction false} SplitSpec(s: string, c: char)
    ensures var r := Split(s, c);
      && (forall i :: 0 <= i < |r| ==> c !in r[i])
      && (|r| == 1 <==> c !in s)
      && (c !in s ==> r == [s])
  {
    if s != [] {
      SplitSpec(s[1..], c);
      assert s == [s[0]] + s[1..];
    }
  }

  /** `String.Join(sep, ps)`. */
  function Join(ps: seq<string>, sep: string): string {
    if |ps| == 0 then []
    else if |ps| == 1 then ps[0]
    else ps[0] + sep + Join(ps[1..], sep)
  }

  /** Joining the pieces of a split with the separator gives the string back. */
  lemma {:induction false} JoinSplit(s: string, c: char)
    ensures Join(Split(s, c), [c]) == s
  {
    if s != [] {
      var rest := Split(s[1..], c);
      JoinSplit(s[1..], c);
      if s[0] == c {
        assert Split(s, c) == [[]] + rest;
      } else {
        var r := Split(s, c);
        assert r == [[s[0]] + rest[0]] + rest[1..];
        if |rest| > 1 {
          assert r[1..] == rest[1..];
          assert Join(rest, [c]) == rest[0] + [c] + Join(rest[1..], [c]);
        }
      }
    }
  }

  lemma SplitCons(x: char, u: string, c: char)
    requires x != c
    ensures Split([x] + u, c) == [[x] + Split(u, c)[0]] + Split(u, c)[1..]
  {
    assert ([x] + u)[1..] == u;
  }

  lemma {:induction false} SplitAfterPiece(p: string, t: string, c: char)
    requires c !in p
    ensures Split(p + t, c) == [p + Split(t, c)[0]] + Split(t, c)[1..]
  {
    var st := Split(t, c);
    if p != [] {
      var q := p[1..];
      assert p[0] in p;
      assert p + t == [p[0]] + (q + t);
      assert c !in q by {
        forall i | 0 <= i < |q| ensures q[i] != c { assert q[i] == p[i + 1]; }
      }
      SplitAfterPiece(q, t, c);
      SplitCons(p[0], q + t, c);
      assert p == [p[0]] + q;
      assert [p[0]] + (q + st[0]) == p + st[0];
    } else {
      assert p + t == t && p + st[0] == st[0];
      assert st == [st[0]] + st[1..];
    }
  }

  /** Splitting pieces joined with a separator they do not contain gives the
      pieces back. */
  lemma {:induction false} SplitJoin(ps: seq<string>, c: char)
    requires |ps| >= 1
    requires forall i :: 0 <= i < |ps| ==> c !in ps[i]
    ensures Split(Join(ps, [c]), c) == ps
  {
    if |ps| == 1 {
      assert ps[0] + [] == ps[0];
      SplitAfterPiece(ps[0], [], c);
    } else {
      var tail := Join(ps[1..], [c]);
      SplitJoin(ps[1..], c);
      assert Join(ps, [c]) == ps[0] + ([c] + tail);
      assert ([c] + tail)[1..] == tail;
      assert Split([c] + tail, c) == [[]] + ps[1..];
      SplitAfterPiece(ps[0], [c] + tail, c);
      assert ps[0] + [] == ps[0];
      assert ps == [ps[0]] + ps[1..];
    }
  }

  /** One more piece after a non-empty list adds a separator and the piece. */
  lemma {:induction false} JoinAppend(ps: seq<string>, x: string, sep: string)
    requires |ps| >= 1
    ensures Join(ps + [x], sep) == Join(ps, sep) + sep + x
  {
    if |ps| == 1 {
      assert ps + [x] == [ps[0], x];
      assert Join([x], sep) == x;
    } else {
      JoinAppend(ps[1..], x, sep);
      assert (ps + [x])[1..] == ps[1..] + [x];
    }
  }

  /** Joining a list that ends in an empty piece: one more piece adds the
      piece and a separator at the end. */
  lemma {:induction false} JoinSnoc(ps: seq<string>, x: string, sep: string)
    ensures Join(ps + [x] + [[]], sep) == Join(ps + [[]], sep) + x + sep
  {
    if ps == [] {
      assert ps + [x] + [[]] == [x, []];
      assert Join([x, []], sep) == x + sep + Join([[]], sep);
      assert ps + [[]] == [[]];
    } else {
      JoinSnoc(ps[1..], x, sep);
      assert (ps + [x] + [[]])[1..] == ps[1..] + [x] + [[]];
      assert (ps + [[]])[1..] == ps[1..] + [[]];
    }
  }

  /** Invariant-culture lower-casing, restricted to ASCII letters. */
  function LowerChar(ch: char): char {
    if 'A' <= ch <= 'Z' then (ch as int + 32) as char else ch
  }

  /** `String.ToLower()` on ASCII: every character lowered, in place. */
  function ToLower(s: string): (r: string)
    ensures |r| == |s|
    ensures forall i :: 0 <= i < |s| ==> r[i] == LowerChar(s[i])
    ensures forall i :: 0 <= i < |r| ==> !('A' <= r[i] <= 'Z')
  {
    if s == [] then [] else [LowerChar(s[0])] + ToLower(s[1..])
  }

  /** Lower-casing is idempotent, so a lower-cased command name is a fixed point. */
  lemma ToLowerIdempotent(s: string)
    ensures ToLower(ToLower(s)) == ToLower(s)
  {
    var t := ToLower(s);
    assert forall i :: 0 <= i < |t| ==> LowerChar(t[i]) == t[i];
  }

  /** `String.IndexOf(c)`: the first position of `c`, or -1. */
  function IndexOf(s: string, c: char): (r: int)
    ensures r == -1 <==> c !in s
    ensures r != -1 ==> 0 <= r < |s| && s[r] == c && c !in s[..r]
  {
    if s == [] then -1
    else if s[0] == c then 0
    else
      var k := IndexOf(s[1..], c);
      assert s == [s[0]] + s[1..];
      if k == -1 then -1
      else
        assert s[..k + 1] == [s[0]] + s[1..][..k];
        k + 1
  }

  /** `String.LastIndexOf(c)`: the last position of `c`, or -1. */
  function LastIndexOf(s: string, c: char): (r: int)
    ensures r == -1 <==> c !in s
    ensures r != -1 ==> 0 <= r < |s| && s[r] == c && c !in s[r + 1..]
  {
    if s == [] then -1
    else if s[|s| - 1] == c then |s| - 1
    else
      assert s == s[..|s| - 1] + [s[|s| - 1]];
      var k := LastIndexOf(s[..|s| - 1], c);
      assert k != -1 ==> s[k + 1..] == s[..|s| - 1][k + 1..] + [s[|s| - 1]];
      k
  }

  predicate IsDigit(ch: char) {
    '0' <= ch <= '9'
  }

  predicate AllDigits(s: string) {
    forall i :: 0 <= i < |s| ==> IsDigit(s[i])
  }

  function DigitChar(d: int): (ch: char)
    requires 0 <= d < 10
    ensures IsDigit(ch) && ch as int - '0' as int == d
  {
    ('0' as int + d) as char
  }

  /** The value of a string of decimal digits. */
  function DigitsValue(s: string): nat
    requires AllDigits(s)
  {
    if s == [] then 0
    else DigitsValue(s[..|s| - 1]) * 10 + (s[|s| - 1] as int - '0' as int)
  }

  /** `UInt32.ToString()`: the shortest decimal numeral for `n`. */
  function NatToString(n: nat): string {
    if n < 10 then [DigitChar(n)] else NatToString(n / 10) + [DigitChar(n % 10)]
  }

  /** The numeral is digits only, at least one, with no leading zero. */
  lemma {:induction false} NatToStringSpec(n: nat)
    ensures var r := NatToString(n); |r| >= 1 && AllDigits(r) && (r[0] == '0' ==> n == 0)
  {
    if n >= 10 {
      NatToStringSpec(n / 10);
    }
  }

  /** The value of `s` when it is all digits, `None` otherwise. */
  function ParseDigits(s: string): Option<nat> {
    if s == [] then Some(0)
    else
      var last := s[|s| - 1];
      match ParseDigits(s[..|s| - 1])
      case None => None
      case Some(v) => if IsDigit(last) then Some(v * 10 + (last as int - '0' as int)) else None
  }

  /** `ParseDigits` accepts exactly the strings of digits, with their value. */
  lemma {:induction false} ParseDigitsSpec(s: string)
    ensures ParseDigits(s).Some? <==> AllDigits(s)
    ensures AllDigits(s) ==> ParseDigits(s) == Some(DigitsValue(s))
  {
    if s != [] {
      var init := s[..|s| - 1];
      ParseDigitsSpec(init);
      assert forall i :: 0 <= i < |init| ==> init[i] == s[i];
    }
  }

  lemma {:induction false} DigitsOfNat(n: nat)
    ensures ParseDigits(NatToString(n)) == Some(n)
  {
    if n >= 10 {
      DigitsOfNat(n / 10);
      var r := NatToString(n);
      assert r[..|r| - 1] == NatToString(n / 10);
    }
  }

  /** The white space the integer number style allows around a number:
      U+0009 to U+000D and the space. */
  predicate IsWhite(ch: char) {
    '\t' <= ch <= '\r' || ch == ' '
  }

  predicate AllWhite(s: string) {
    forall i :: 0 <= i < |s| ==> IsWhite(s[i])
  }

  /** `s` without its leading white space. */
  function SkipWhite(s: string): (r: string)
    ensures |r| <= |s|
    ensures r == [] || !IsWhite(r[0])
  {
    if s != [] && IsWhite(s[0]) then SkipWhite(s[1..]) else s
  }

  /** `s` without its trailing white space. */
  function DropWhite(s: string): (r: string)
    ensures |r| <= |s|
    ensures r == [] || !IsWhite(r[|r| - 1])
  {
    if s != [] && IsWhite(s[|s| - 1]) then DropWhite(s[..|s| - 1]) else s
  }

  /** What the number parsers read as the number itself: leading white
      space is skipped, and so are trailing NUL characters and the white
      space before them. */
  function Core(s: string): string {
    DropWhite(TrimEnd(SkipWhite(s), '\0'))
  }

  /** The part of a signed numeral after its sign. */
  function Unsigned(c: string): string {
    if c != [] && (c[0] == '+' || c[0] == '-') then c[1..] else c
  }

  /** `Byte.Parse` / `UInt32.Parse` with the integer number style: white
      space around the number and NULs after it are allowed; the number is
      an optional sign, then ASCII digits; a value above `max` overflows,
      and a minus sign is accepted only in front of zero. */
  function ParseUnsigned(s: string, max: nat): (r: Option<nat>)
    ensures r.Some? ==> r.value <= max
  {
    var c := Core(s);
    var digits := Unsigned(c);
    if digits == [] then None
    else
      match ParseDigits(digits)
      case None => None
      case Some(v) => if (c[0] == '-' && v != 0) || v > max then None else Some(v)
  }

  /** What `ParseUnsigned` accepts: a value in range, written, once the
      padding is set aside, as an optional sign and one or more digits. */
  lemma ParseUnsignedSpec(s: string, max: nat)
    ensures var r := ParseUnsigned(s, max); var c := Core(s); var d := Unsigned(c);
      && (r.Some? ==> r.value <= max)
      && (r.Some? <==> d != [] && AllDigits(d) && DigitsValue(d) <= max && (c[0] == '-' ==> DigitsValue(d) == 0))
      && (r.Some? ==> r.value == DigitsValue(d))
  {
    ParseDigitsSpec(Unsigned(Core(s)));
  }

  lemma {:induction false} SkipWhitePadded(a: string, t: string)
    requires AllWhite(a)
    requires t == [] || !IsWhite(t[0])
    ensures SkipWhite(a + t) == t
  {
    if a != [] {
      assert (a + t)[1..] == a[1..] + t;
      SkipWhitePadded(a[1..], t);
    }
  }

  lemma {:induction false} DropWhitePadded(t: string, b: string)
    requires AllWhite(b)
    requires t == [] || !IsWhite(t[|t| - 1])
    ensures DropWhite(t + b) == t
  {
    if b != [] {
      assert (t + b)[..|t + b| - 1] == t + b[..|b| - 1];
      DropWhitePadded(t, b[..|b| - 1]);
    }
  }

  /** The padding is set aside exactly: a number `c` with white space
      before it, and white space and then NULs after it, reads as `c`. */
  lemma PaddedCore(lead: string, c: string, trail: string, nuls: string)
    requires AllWhite(lead) && AllWhite(trail) && AllOf(nuls, '\0')
    requires c != [] && !IsWhite(c[0]) && !IsWhite(c[|c| - 1]) && c[|c| - 1] != '\0'
    ensures Core(lead + c + trail + nuls) == c
  {
    assert lead + c + trail + nuls == lead + (c + trail + nuls);
    SkipWhitePadded(lead, c + trail + nuls);
    assert (c + trail) + nuls == c + trail + nuls;
    assert (c + trail)[|c + trail| - 1] != '\0' by {
      if trail == [] { assert (c + trail)[|c + trail| - 1] == c[|c| - 1]; }
      else { assert IsWhite(trail[|trail| - 1]); }
    }
    TrimEndOfPadded(c + trail, nuls, '\0');
    DropWhitePadded(c, trail);
  }

  /** A printed number reads back, whatever padding surrounds it; one above
      `max` is refused. */
  lemma ParsePadded(lead: string, n: nat, trail: string, nuls: string, max: nat)
    requires AllWhite(lead) && AllWhite(trail) && AllOf(nuls, '\0')
    ensures ParseUnsigned(lead + NatToString(n) + trail + nuls, max) == if n <= max then Some(n) else None
  {
    var c := NatToString(n);
    NatToStringSpec(n);
    PaddedCore(lead, c, trail, nuls);
    DigitsOfNat(n);
  }

  /** Parsing reads back what `NatToString` prints, for every value in range. */
  lemma ParsePrinted(n: nat, max: nat)
    requires n <= max
    ensures ParseUnsigned(NatToString(n), max) == Some(n)
  {
    var c := NatToString(n);
    assert [] + c + [] + [] == c;
    ParsePadded([], n, [], [], max);
  }

  predicate IsBrace(ch: char) {
    ch == '{' || ch == '}'
  }

  predicate NoBraces(s: string) {
    '{' !in s && '}' !in s
  }

  /** Texts without braces joined by one without braces have none. */
  lemma NoBracesJoin(a: string, sep: string, b: string)
    requires NoBraces(a) && NoBraces(sep) && NoBraces(b)
    ensures NoBraces(a + sep + b)
  {
    assert forall c :: c in a + sep + b ==> c in a || c in sep || c in b;
  }

  /** `String.Format` with no arguments: a doubled brace stands for one
      brace, and any other brace starts a format item that names a missing
      argument, so the call throws (`None`). */
  function Unescape(s: string): Option<string> {
    if s == [] then Some([])
    else if IsBrace(s[0]) then
      if |s| >= 2 && s[1] == s[0] then
        match Unescape(s[2..])
        case None => None
        case Some(t) => Some([s[0]] + t)
      else None
    else
      match Unescape(s[1..])
      case None => None
      case Some(t) => Some([s[0]] + t)
  }

  /** The format string that stands for `t`: every brace doubled. */
  function Escape(t: string): string {
    if t == [] then []
    else (if IsBrace(t[0]) then [t[0], t[0]] else [t[0]]) + Escape(t[1..])
  }

  /** Every text has a format string that gives it back. */
  lemma {:induction false} UnescapeEscape(t: string)
    ensures Unescape(Escape(t)) == Some(t)
  {
    if t != [] {
      UnescapeEscape(t[1..]);
      var s := Escape(t);
      if IsBrace(t[0]) {
        assert s[2..] == Escape(t[1..]);
      } else {
        assert s[1..] == Escape(t[1..]);
      }
      assert t == [t[0]] + t[1..];
    }
  }

  /** A format string that does not throw is the escaped form of what it gives. */
  lemma {:induction false} EscapeUnescape(s: string)
    requires Unescape(s).Some?
    ensures Escape(Unescape(s).value) == s
  {
    if s != [] {
      var t := Unescape(s).value;
      if IsBrace(s[0]) {
        EscapeUnescape(s[2..]);
        assert t[1..] == Unescape(s[2..]).value;
        assert s == [s[0], s[0]] + s[2..];
      } else {
        EscapeUnescape(s[1..]);
        assert t[1..] == Unescape(s[1..]).value;
        assert s == [s[0]] + s[1..];
      }
    }
  }

  /** Text without braces comes through `String.Format` unchanged. */
  lemma {:induction false} UnescapePlain(s: string)
    ensures NoBraces(s) ==> Unescape(s) == Some(s)
  {
    if s != [] && NoBraces(s) {
      UnescapePlain(s[1..]);
      assert s == [s[0]] + s[1..];
    }
  }

  /** Text without braces in front of a format string is kept as it is. */
  lemma {:induction false} UnescapePlainPrefix(a: string, x: string)
    requires NoBraces(a)
    ensures Unescape(a + x) == match Unescape(x) case None => None case Some(t) => Some(a + t)
  {
    if a != [] {
      assert !IsBrace(a[0]);
      assert (a + x)[1..] == a[1..] + x;
      UnescapePlainPrefix(a[1..], x);
      assert (a + x)[0] == a[0];
      match Unescape(x)
      case None =>
      case Some(t) => assert [a[0]] + (a[1..] + t) == a + t;
    } else {
      assert a + x == x;
      match Unescape(x)
      case None =>
      case Some(t) => assert a + t == t;
    }
  }

  /** Text without braces after a format string is kept as it is. */
  lemma {:induction false} UnescapePlainSuffix(x: string, b: string)
    requires NoBraces(b)
    ensures Unescape(x + b) == match Unescape(x) case None => None case Some(t) => Some(t + b)
    decreases |x|
  {
    if x == [] {
      UnescapePlain(b);
      assert x + b == b;
    } else if IsBrace(x[0]) {
      if |x| >= 2 && x[1] == x[0] {
        assert (x + b)[0] == x[0] && (x + b)[1] == x[1];
        assert (x + b)[2..] == x[2..] + b;
        UnescapePlainSuffix(x[2..], b);
        match Unescape(x[2..])
        case None =>
        case Some(t) => assert [x[0]] + (t + b) == ([x[0]] + t) + b;
      } else if |x| == 1 {
        assert (x + b)[0] == x[0];
        assert b != [] ==> (x + b)[1] == b[0] && !IsBrace(b[0]);
      } else {
        assert (x + b)[1] == x[1];
      }
    } else {
      assert (x + b)[0] == x[0];
      assert (x + b)[1..] == x[1..] + b;
      UnescapePlainSuffix(x[1..], b);
      match Unescape(x[1..])
      case None =>
      case Some(t) => assert [x[0]] + (t + b) == ([x[0]] + t) + b;
    }
  }

  /** A single brace among text without braces makes `String.Format` throw. */
  lemma LoneBraceThrows(a: string, c: char, b: string)
    requires NoBraces(a) && IsBrace(c) && NoBraces(b)
    ensures Unescape(a + [c] + b).None?
  {
    assert a + [c] + b == a + ([c] + b);
    UnescapePlainPrefix(a, [c] + b);
    assert b != [] ==> ([c] + b)[1] == b[0] && !IsBrace(b[0]);
  }

  /** `Console.Format` with no arguments: `String.Format`, then line breaks
      trimmed from both ends; `None` when `String.Format` throws. */
  function Format(s: string): (r: Option<string>)
    ensures r.Some? <==> Unescape(s).Some?
    ensures r.Some? ==> r.value == [] || (r.value[0] != '\n' && r.value[|r.value| - 1] != '\n')
    ensures NoBraces(s) ==> r == Some(Trim(s, '\n'))
  {
    UnescapePlain(s);
    match Unescape(s)
    case None => None
    case Some(t) => Some(Trim(t, '\n'))
  }
}
