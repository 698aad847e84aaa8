/** Python string and byte operations the backend relies on: `strip`, `lower`, `split`, `join`,
    `in`, `endswith`, `replace`, decimal formatting of an integer and `bytes.hex()`. */
module Text {
  import opened Wrappers

  /** Python truthiness of an optional string: present and not empty. */
  predicate Truthy(s: Option<string>) {
    s.Some? && s.value != ""
  }

  /** The values of the truthy entries, in order: `[x for x in xs if x]`. */
  function Present(xs: seq<Option<string>>): (r: seq<string>)
    ensures |r| <= |xs|
    ensures forall x :: x in r <==> x != "" && Some(x) in xs
  {
    if xs == [] then []
    else
      var r := (if Truthy(xs[0]) then [xs[0].value] else []) + Present(xs[1..]);
      assert xs == [xs[0]] + xs[1..];
      r
  }

  /** Each non-empty value is kept as many times as it occurs; "" never is. */
  lemma {:induction false} PresentCounts(xs: seq<Option<string>>)
    ensures forall x :: x != "" ==> multiset(Present(xs))[x] == multiset(xs)[Some(x)]
    ensures multiset(Present(xs))[""] == 0
  {
    if xs != [] {
      assert xs == [xs[0]] + xs[1..];
      PresentCounts(xs[1..]);
    }
  }

  /** A single entry gives its value when truthy and nothing otherwise. */
  lemma PresentSingle(x: Option<string>)
    ensures Present([x]) == if Truthy(x) then [x.value] else []
  {
    assert [x][1..] == [];
  }

  /** Filtering a concatenation filters each part: the values keep their order. Together with
      `PresentSingle` this fixes `Present` entry by entry. */
  lemma {:induction false} PresentAppend(xs: seq<Option<string>>, ys: seq<Option<string>>)
    ensures Present(xs + ys) == Present(xs) + Present(ys)
  {
    if xs != [] {
      assert (xs + ys)[0] == xs[0];
      assert (xs + ys)[1..] == xs[1..] + ys;
      PresentAppend(xs[1..], ys);
    } else {
      assert xs + ys == ys;
    }
  }

  /** The text before the first `c`, or all of `s` when it holds none: `s.split(c, 1)[0]`. */
  function BeforeFirst(s: string, c: char): (r: string)
    ensures c !in r
    ensures c in s ==> |r| < |s| && r == s[..|r|] && s[|r|] == c
    ensures c !in s ==> r == s
  {
    if s == [] then []
    else if s[0] == c then []
    else [s[0]] + BeforeFirst(s[1..], c)
  }

  /** A byte of `bytes`. */
  newtype byte = x: int | 0 <= x < 256

  // ---------------------------------------------------------------------------------------------
  // Whitespace and `str.strip()`

  /** The characters Python's `str.isspace` accepts, which `str.strip()` removes. */
  predicate IsSpace(c: char) {
    || ('\t' <= c <= '\r')
    || ('\U{1C}' <= c <= ' ')
    || c == '\U{85}' || c == '\U{A0}' || c == '\U{1680}'
    || ('\U{2000}' <= c <= '\U{200A}')
    || c == '\U{2028}' || c == '\U{2029}' || c == '\U{202F}' || c == '\U{205F}' || c == '\U{3000}'
  }

  /** Number of whitespace characters at the front of `s`. */
  function LeadingSpace(s: string): (n: nat)
    ensures n <= |s|
    ensures forall k :: 0 <= k < n ==> IsSpace(s[k])
    ensures n < |s| ==> !IsSpace(s[n])
  {
    if |s| > 0 && IsSpace(s[0]) then 1 + LeadingSpace(s[1..]) else 0
  }

  /** Number of whitespace characters at the back of `s`. */
  function TrailingSpace(s: string): (n: nat)
    ensures n <= |s|
    ensures forall k :: |s| - n <= k < |s| ==> IsSpace(s[k])
    ensures n < |s| ==> !IsSpace(s[|s| - 1 - n])
  {
    if |s| > 0 && IsSpace(s[|s| - 1]) then 1 + TrailingSpace(s[..|s| - 1]) else 0
  }

  /** Neither end of `s` is whitespace. */
  predicate IsStripped(s: string) {
    s == [] || (!IsSpace(s[0]) && !IsSpace(s[|s| - 1]))
  }

  /** Python's `s.strip()`: the longest infix of `s` whose ends are not whitespace, obtained by
      removing only whitespace. */
  function Strip(s: string): (r: string)
    ensures IsStripped(r)
    ensures LeadingSpace(s) + |r| <= |s|
    ensures r == s[LeadingSpace(s)..][..|r|]
    ensures forall k :: LeadingSpace(s) + |r| <= k < |s| ==> IsSpace(s[k])
  {
    var t := s[LeadingSpace(s)..];
    var r := t[..|t| - TrailingSpace(t)];
    assert r != [] ==> r[0] == s[LeadingSpace(s)];
    r
  }

  /** A string without whitespace at either end is its own strip. */
  lemma StripStripped(s: string)
    requires IsStripped(s)
    ensures Strip(s) == s
  {
    assert LeadingSpace(s) == 0;
    assert TrailingSpace(s) == 0;
  }

  /** `strip` is idempotent. */
  lemma StripIdempotent(s: string)
    ensures Strip(Strip(s)) == Strip(s)
  {
    StripStripped(Strip(s));
  }

  // ---------------------------------------------------------------------------------------------
  // `str.lower()`

  function LowerChar(c: char): char {
    if 'A' <= c <= 'Z' then (c as int + 32) as char else c
  }

  /** Python's `s.lower()` on ASCII letters; every other character is kept. */
  function Lower(s: string): (r: string)
    ensures |r| == |s|
    ensures forall k :: 0 <= k < |s| ==> r[k] == LowerChar(s[k])
  {
    seq(|s|, k requires 0 <= k < |s| => LowerChar(s[k]))
  }

  lemma LowerIdempotent(s: string)
    ensures Lower(Lower(s)) == Lower(s)
  {
    assert forall k :: 0 <= k < |s| ==> LowerChar(LowerChar(s[k])) == LowerChar(s[k]);
  }

  /** Lower-casing maps whitespace to whitespace and nothing else to whitespace. */
  lemma LowerCharSpace(c: char)
    ensures IsSpace(LowerChar(c)) <==> IsSpace(c)
  {
  }

  /** Python's `s.strip().lower()`. */
  function StripLower(s: string): string {
    Lower(Strip(s))
  }

  /** A string is in canonical form: stripped and lower-case. */
  predicate IsCanonical(s: string) {
    IsStripped(s) && Lower(s) == s
  }

  /** `strip().lower()` yields a canonical string: lower-casing keeps the stripped ends free of
      whitespace. */
  lemma StripLowerCanonical(s: string)
    ensures IsCanonical(StripLower(s))
  {
    var t := Strip(s);
    if t != [] {
      LowerCharSpace(t[0]);
      LowerCharSpace(t[|t| - 1]);
    }
    LowerIdempotent(t);
  }

  /** Canonical strings are left alone by `strip().lower()`. */
  lemma StripLowerOfCanonical(s: string)
    requires IsCanonical(s)
    ensures StripLower(s) == s
  {
    StripStripped(s);
  }

  // ---------------------------------------------------------------------------------------------
  // Substring search: `sub in s`, `s.find(sub)`

  predicate OccursAt(s: string, sub: string, m: int) {
    0 <= m && m + |sub| <= |s| && s[m..m + |sub|] == sub
  }

  /** The first position at or after `k` where `sub` occurs in `s`. */
  function FindFrom(s: string, sub: string, k: nat): (r: Option<nat>)
    decreases |s| - k
    ensures r.Some? ==> k <= r.value && OccursAt(s, sub, r.value)
    ensures r.Some? ==> forall m :: k <= m < r.value ==> !OccursAt(s, sub, m)
    ensures r.None? ==> forall m :: k <= m ==> !OccursAt(s, sub, m)
  {
    if k + |sub| > |s| then None
    else if s[k..k + |sub|] == sub then Some(k)
    else FindFrom(s, sub, k + 1)
  }

  /** The first position where `sub` occurs in `s`, if any. */
  function Find(s: string, sub: string): (r: Option<nat>)
    ensures r.Some? ==> OccursAt(s, sub, r.value) && forall m :: 0 <= m < r.value ==> !OccursAt(s, sub, m)
    ensures r.None? ==> forall m :: !OccursAt(s, sub, m)
  {
    FindFrom(s, sub, 0)
  }

  /** Python's `sub in s`. */
  predicate Contains(s: string, sub: string) {
    Find(s, sub).Some?
  }

  lemma ContainsIff(s: string, sub: string)
    ensures Contains(s, sub) <==> exists m :: OccursAt(s, sub, m)
  {
  }

  /** Python's `s.endswith(suffix)`. */
  predicate EndsWith(s: string, suffix: string) {
    |suffix| <= |s| && s[|s| - |suffix|..] == suffix
  }

  // ---------------------------------------------------------------------------------------------
  // `sep.join(parts)` and `s.split(sep)`

  /** Python's `sep.join(parts)`. */
  function Join(parts: seq<string>, sep: string): string
    decreases |parts|
  {
    if |parts| == 0 then ""
    else if |parts| == 1 then parts[0]
    else parts[0] + sep + Join(parts[1..], sep)
  }

  /** Python's `s.split(sep)` for a non-empty separator: the pieces between the non-overlapping
      occurrences of `sep`, found from left to right. */
  function Split(s: string, sep: string): (r: seq<string>)
    requires |sep| > 0
    decreases |s|
    ensures |r| >= 1
    ensures forall p :: p in r ==> !Contains(p, sep)
    ensures Join(r, sep) == s
    ensures Contains(s, sep) <==> |r| >= 2
    ensures Contains(s, sep) ==> r[0] == s[..Find(s, sep).value]
  {
    match Find(s, sep)
    case None => [s]
    case Some(i) =>
      var head := s[..i];
      assert !Contains(head, sep) by {
        forall m | OccursAt(head, sep, m) ensures false { assert OccursAt(s, sep, m); }
      }
      var rest := Split(s[i + |sep|..], sep);
      assert s == head + sep + s[i + |sep|..];
      [head] + rest
  }

  /** A string without a one-character substring has no such character. */
  lemma CharNotContained(p: string, c: char)
    requires !Contains(p, [c])
    ensures c !in p
  {
    ContainsIff(p, [c]);
    forall m | 0 <= m < |p| ensures p[m] != c {
      assert p[m..m + 1] == [p[m]];
      assert !OccursAt(p, [c], m);
    }
  }

  lemma StripKeepsAbsent(s: string, c: char)
    requires c !in s
    ensures c !in Strip(s)
  {
    var r, l := Strip(s), LeadingSpace(s);
    forall k | 0 <= k < |r| ensures r[k] != c {
      assert r[k] == s[l + k];
    }
  }

  /** The stripped, non-empty parts, in order. */
  function StrippedNonEmpty(parts: seq<string>): (r: seq<string>)
    ensures |r| <= |parts|
    ensures forall x :: x in r ==> x != "" && IsStripped(x)
  {
    if parts == [] then []
    else (if Strip(parts[0]) != "" then [Strip(parts[0])] else []) + StrippedNonEmpty(parts[1..])
  }

  lemma {:induction false} StrippedKeepsAbsent(parts: seq<string>, c: char)
    requires forall p :: p in parts ==> !Contains(p, [c])
    ensures forall x :: x in StrippedNonEmpty(parts) ==> c !in x
  {
    if parts != [] {
      CharNotContained(parts[0], c);
      StripKeepsAbsent(parts[0], c);
      StrippedKeepsAbsent(parts[1..], c);
    }
  }

  /** Items that are already stripped and non-empty pass through unchanged. */
  lemma {:induction false} StrippedNonEmptyOfStripped(xs: seq<string>)
    requires forall x :: x in xs ==> x != "" && IsStripped(x)
    ensures StrippedNonEmpty(xs) == xs
  {
    if xs != [] {
      assert xs[0] in xs;
      StripStripped(xs[0]);
      assert forall x :: x in xs[1..] ==> x in xs;
      StrippedNonEmptyOfStripped(xs[1..]);
    }
  }

  /** Splitting on a separator undoes joining with it, when no piece holds the separator's
      first character. */
  lemma {:induction false} SplitJoin(parts: seq<string>, sep: string)
    requires |parts| >= 1 && |sep| >= 1
    requires forall p :: p in parts ==> sep[0] !in p
    ensures Split(Join(parts, sep), sep) == parts
  {
    if |parts| > 1 {
      var s := Join(parts, sep);
      var p0 := parts[0];
      var rest := Join(parts[1..], sep);
      assert p0 in parts;
      assert s == p0 + sep + rest;
      assert s[|p0|..|p0| + |sep|] == sep;
      assert OccursAt(s, sep, |p0|);
      forall m | 0 <= m < |p0| ensures !OccursAt(s, sep, m) {
        assert s[m] == p0[m] != sep[0];
      }
      assert Find(s, sep) == Some(|p0|);
      assert s[..|p0|] == p0;
      assert s[|p0| + |sep|..] == rest;
      SplitJoin(parts[1..], sep);
    } else {
      assert parts[0] in parts;
    }
  }

  lemma JoinNonEmpty(parts: seq<string>, sep: string)
    requires parts != [] && parts[0] != ""
    ensures Join(parts, sep) != ""
  {
    if |parts| > 1 {
      assert Join(parts, sep) == parts[0] + sep + Join(parts[1..], sep);
    }
  }

  /** Joining with a one-character separator loses nothing when no piece is empty or holds it. */
  lemma JoinInjective(xs: seq<string>, ys: seq<string>, c: char)
    requires forall x :: x in xs ==> x != "" && c !in x
    requires forall y :: y in ys ==> y != "" && c !in y
    requires Join(xs, [c]) == Join(ys, [c])
    ensures xs == ys
  {
    if xs != [] { assert xs[0] in xs; JoinNonEmpty(xs, [c]); }
    if ys != [] { assert ys[0] in ys; JoinNonEmpty(ys, [c]); }
    if xs != [] && ys != [] {
      SplitJoin(xs, [c]);
      SplitJoin(ys, [c]);
    }
  }

  lemma SeparatorPositions(s: string, a: string, b: string, c: char)
    requires s == a + [c] + b
    ensures s[|a|] == c
    ensures c !in a ==> forall j :: 0 <= j < |a| ==> s[j] != c
    ensures c !in b ==> forall j :: |a| < j < |s| ==> s[j] != c
  {
    if c !in a {
      forall j | 0 <= j < |a| ensures s[j] != c {
        assert s[j] == a[j];
      }
    }
    if c !in b {
      forall j | |a| < j < |s| ensures s[j] != c {
        assert s[j] == b[j - |a| - 1];
      }
    }
  }

  /** Cutting at the last occurrence of `c`: equal strings whose tails after a `c` hold no `c`
      have equal heads and equal tails. */
  lemma SplitAtLast(a1: string, b1: string, a2: string, b2: string, c: char)
    requires a1 + [c] + b1 == a2 + [c] + b2
    requires c !in b1 && c !in b2
    ensures a1 == a2 && b1 == b2
  {
    var s := a1 + [c] + b1;
    SeparatorPositions(s, a1, b1, c);
    SeparatorPositions(s, a2, b2, c);
    assert |a1| == |a2|;
    assert a1 == s[..|a1|] == a2;
    assert b1 == s[|a1| + 1..] == b2;
  }

  /** Cutting at the first occurrence of `c`: equal strings whose heads before a `c` hold no `c`
      have equal heads and equal tails. */
  lemma SplitAtFirst(a1: string, b1: string, a2: string, b2: string, c: char)
    requires a1 + [c] + b1 == a2 + [c] + b2
    requires c !in a1 && c !in a2
    ensures a1 == a2 && b1 == b2
  {
    var s := a1 + [c] + b1;
    SeparatorPositions(s, a1, b1, c);
    SeparatorPositions(s, a2, b2, c);
    assert |a1| == |a2|;
    assert a1 == s[..|a1|] == a2;
    assert b1 == s[|a1| + 1..] == b2;
  }

  // ---------------------------------------------------------------------------------------------
  // `s.replace(old, new)` for a one-character `old`

  function ReplaceChar(s: string, c: char, repl: string): (r: string)
    ensures c !in repl ==> c !in r
  {
    if s == [] then [] else (if s[0] == c then repl else [s[0]]) + ReplaceChar(s[1..], c, repl)
  }

  // ---------------------------------------------------------------------------------------------
  // Decimal rendering of a natural number (`f"{n}"`) and `bytes.hex()`

  predicate IsDigit(c: char) { '0' <= c <= '9' }

  function DigitChar(d: nat): (c: char)
    requires d < 10
    ensures IsDigit(c)
  {
    (48 + d) as char
  }

  /** The decimal digits of `n`, without leading zeros. */
  function Decimal(n: nat): (r: string)
    ensures |r| >= 1
    ensures forall c :: c in r ==> IsDigit(c)
  {
    if n < 10 then [DigitChar(n)] else Decimal(n / 10) + [DigitChar(n % 10)]
  }

  /** Python's `f"{n}"` for any integer. */
  function IntText(n: int): (r: string)
    ensures |r| >= 1
  {
    if n < 0 then "-" + Decimal(-n) else Decimal(n)
  }

  /** Python's `f"{o}"` for an optional string: the string itself, or "None". */
  function OptText(o: Option<string>): string {
    if o.Some? then o.value else "None"
  }

  function ParseDecimal(s: string): nat
    decreases |s|
  {
    if s == [] then 0
    else ParseDecimal(s[..|s| - 1]) * 10 + (if IsDigit(s[|s| - 1]) then s[|s| - 1] as int - 48 else 0)
  }

  /** Reading the rendering of a number gives the number back. */
  lemma {:induction false} DecimalRoundTrip(n: nat)
    ensures ParseDecimal(Decimal(n)) == n
  {
    if n >= 10 {
      var s := Decimal(n);
      assert s[..|s| - 1] == Decimal(n / 10);
      DecimalRoundTrip(n / 10);
    }
  }

  lemma DecimalInjective(a: nat, b: nat)
    requires Decimal(a) == Decimal(b)
    ensures a == b
  {
    DecimalRoundTrip(a);
    DecimalRoundTrip(b);
  }

  function HexDigit(d: nat): (c: char)
    requires d < 16
  {
    "0123456789abcdef"[d]
  }

  function HexValue(c: char): nat {
    if '0' <= c <= '9' then c as int - 48
    else if 'a' <= c <= 'f' then c as int - 87
    else 0
  }

  /** Python's `bytes.hex()`: two lower-case hexadecimal digits per byte. */
  function Hex(b: seq<byte>): (r: string)
    ensures |r| == 2 * |b|
    ensures forall c :: c in r ==> c in "0123456789abcdef"
  {
    if b == [] then []
    else [HexDigit(b[0] as nat / 16), HexDigit(b[0] as nat % 16)] + Hex(b[1..])
  }

  /** The inverse of `Hex` (`bytes.fromhex`). */
  function Unhex(s: string): seq<byte>
    decreases |s|
  {
    if |s| < 2 then []
    else
      var v := HexValue(s[0]) * 16 + HexValue(s[1]);
      [if v < 256 then v as byte else 0] + Unhex(s[2..])
  }

  lemma HexDigitValue(d: nat)
    requires d < 16
    ensures HexValue(HexDigit(d)) == d
  {
  }

  lemma {:induction false} HexRoundTrip(b: seq<byte>)
    ensures Unhex(Hex(b)) == b
  {
    if b != [] {
      var s := Hex(b);
      var hi, lo := b[0] as nat / 16, b[0] as nat % 16;
      assert s[0] == HexDigit(hi) && s[1] == HexDigit(lo);
      HexDigitValue(hi);
      HexDigitValue(lo);
      assert HexValue(s[0]) * 16 + HexValue(s[1]) == b[0] as nat;
      assert s[2..] == Hex(b[1..]);
      HexRoundTrip(b[1..]);
    }
  }
}
