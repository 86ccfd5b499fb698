/** Strings as the rewriter and the `.env` code use them: splitting and joining on one separator,
    trimming, and the identifiers compose accepts as variable names. */
module Text {

  datatype Option<+T> = None | Some(value: T)

  /** A key's value, or that it has none. */
  function Lookup<V>(m: map<string, V>, key: string): Option<V> {
    if key in m then Some(m[key]) else None
  }

  /** `s.split(c)`: always at least one part. */
  function Split(s: string, c: char): (parts: seq<string>)
    ensures |parts| >= 1
  {
    if s == "" then [""]
    else
      var rest := Split(s[1..], c);
      if s[0] == c then [""] + rest else [[s[0]] + rest[0]] + rest[1..]
  }

  /** `parts.join(c)` for a one-character separator. */
  function Join(parts: seq<string>, c: char): string {
    if |parts| == 0 then ""
    else if |parts| == 1 then parts[0]
    else parts[0] + [c] + Join(parts[1..], c)
  }

  lemma {:induction false} JoinSplit(s: string, c: char)
    ensures Join(Split(s, c), c) == s
  {
    if s != "" {
      JoinSplit(s[1..], c);
      var rest := Split(s[1..], c);
      if s[0] == c {
        assert ([""] + rest)[1..] == rest;
      } else {
        assert ([[s[0]] + rest[0]] + rest[1..])[1..] == rest[1..];
        if |rest| > 1 {
          assert [s[0]] + rest[0] + [c] + Join(rest[1..], c) == [s[0]] + (rest[0] + [c] + Join(rest[1..], c));
        }
      }
    }
  }

  lemma {:induction false} SplitWithout(s: string, c: char)
    requires c !in s
    ensures Split(s, c) == [s]
  {
    if s != "" {
      SplitWithout(s[1..], c);
      assert [s[0]] + s[1..] == s;
    }
  }

  /** No part of a split contains the separator. */
  lemma {:induction false} SplitParts(s: string, c: char)
    ensures forall p :: p in Split(s, c) ==> c !in p
  {
    if s != "" {
      SplitParts(s[1..], c);
    }
  }

  function Prepend(x: char, c: char, parts: seq<string>): seq<string>
    requires |parts| >= 1
  {
    if x == c then [""] + parts else [[x] + parts[0]] + parts[1..]
  }

  lemma SplitCons(x: char, c: char, s: string)
    ensures Split([x] + s, c) == Prepend(x, c, Split(s, c))
  {
    assert ([x] + s)[1..] == s;
  }

  lemma {:induction false} SplitAppend(a: string, c: char, b: string)
    ensures Split(a + [c] + b, c) == Split(a, c) + Split(b, c)
  {
    if a == "" {
      assert a + [c] + b == [c] + b;
      SplitCons(c, c, b);
    } else {
      var tail := a[1..] + [c] + b;
      assert a + [c] + b == [a[0]] + tail && a == [a[0]] + a[1..];
      SplitCons(a[0], c, tail);
      SplitCons(a[0], c, a[1..]);
      SplitAppend(a[1..], c, b);
    }
  }

  lemma {:induction false} SplitJoin(parts: seq<string>, c: char)
    requires |parts| >= 1
    requires forall p :: p in parts ==> c !in p
    ensures Split(Join(parts, c), c) == parts
  {
    SplitWithout(parts[0], c);
    if |parts| > 1 {
      SplitJoin(parts[1..], c);
      SplitAppend(parts[0], c, Join(parts[1..], c));
      assert parts == [parts[0]] + parts[1..];
    }
  }

  /** The characters `String.prototype.trim` removes. */
  predicate IsSpace(c: char) {
    c == ' ' || c == '\t' || c == '\n' || c == '\r' || c == '\U{0B}' || c == '\U{0C}' || c == '\U{A0}' ||
    c == '\U{1680}' || '\U{2000}' <= c <= '\U{200A}' || c == '\U{2028}' || c == '\U{2029}' || c == '\U{202F}' ||
    c == '\U{205F}' || c == '\U{3000}' || c == '\U{FEFF}'
  }

  function TrimStart(s: string): string {
    if s != "" && IsSpace(s[0]) then TrimStart(s[1..]) else s
  }

  function TrimEnd(s: string): string {
    if s != "" && IsSpace(s[|s| - 1]) then TrimEnd(s[..|s| - 1]) else s
  }

  function Trim(s: string): string {
    TrimEnd(TrimStart(s))
  }

  predicate AllSpace(s: string) {
    forall c :: c in s ==> IsSpace(c)
  }

  /** Neither starts nor ends with white space. */
  predicate IsTrimmed(s: string) {
    s != "" ==> !IsSpace(s[0]) && !IsSpace(s[|s| - 1])
  }

  lemma {:induction false} TrimStartSkips(before: string, rest: string)
    requires AllSpace(before)
    ensures TrimStart(before + rest) == TrimStart(rest)
  {
    if before == "" {
      assert before + rest == rest;
    } else {
      assert before[0] in before;
      assert (before + rest)[1..] == before[1..] + rest;
      TrimStartSkips(before[1..], rest);
    }
  }

  lemma {:induction false} TrimEndSkips(body: string, after: string)
    requires AllSpace(after)
    ensures TrimEnd(body + after) == TrimEnd(body)
  {
    if after == "" {
      assert body + after == body;
    } else {
      var init := after[..|after| - 1];
      assert after[|after| - 1] in after;
      assert (body + after)[..|body + after| - 1] == body + init;
      TrimEndSkips(body, init);
    }
  }

  /** Trimming removes exactly the white space around a trimmed text. */
  lemma TrimIs(before: string, body: string, after: string)
    requires AllSpace(before) && AllSpace(after) && IsTrimmed(body)
    ensures Trim(before + body + after) == body
  {
    assert before + body + after == before + (body + after);
    TrimStartSkips(before, body + after);
    if body == "" {
      assert body + after == after + "";
      TrimStartSkips(after, "");
    } else {
      TrimEndSkips(body, after);
    }
  }

  /** Trimming adds no character. */
  lemma {:induction false} TrimAdds(s: string, c: char)
    requires c !in s
    ensures c !in Trim(s)
  {
    if s != "" && IsSpace(s[0]) {
      TrimAdds(s[1..], c);
    } else {
      TrimEndAdds(s, c);
    }
  }

  lemma {:induction false} TrimEndAdds(s: string, c: char)
    requires c !in s
    ensures c !in TrimEnd(s)
  {
    if s != "" && IsSpace(s[|s| - 1]) {
      TrimEndAdds(s[..|s| - 1], c);
    }
  }

  /** `s.indexOf(c)`, with `|s|` for "not found". */
  function IndexOf(s: string, c: char): (i: nat)
    ensures i <= |s|
    ensures c !in s[..i]
    ensures i < |s| ==> s[i] == c
  {
    if s == "" || s[0] == c then 0
    else
      var rest := IndexOf(s[1..], c);
      assert s[..rest + 1] == [s[0]] + s[1..][..rest];
      rest + 1
  }

  lemma {:induction false} IndexOfIs(before: string, c: char, rest: string)
    requires c !in before
    ensures IndexOf(before + [c] + rest, c) == |before|
  {
    if before == "" {
      assert before + [c] + rest == [c] + rest;
    } else {
      IndexOfIs(before[1..], c, rest);
      assert (before + [c] + rest)[1..] == before[1..] + [c] + rest;
    }
  }

  /** Lower case, as far as it is one ASCII character: besides `A` to `Z` only the Kelvin sign has one. */
  function LowerChar(c: char): char {
    if 'A' <= c <= 'Z' then (c as int - 'A' as int + 'a' as int) as char
    else if c == '\U{212A}' then 'k'
    else c
  }

  predicate IsIdentStart(c: char) {
    'A' <= c <= 'Z' || 'a' <= c <= 'z' || c == '_'
  }

  predicate IsIdentChar(c: char) {
    IsIdentStart(c) || '0' <= c <= '9'
  }

  /** `[A-Za-z_][A-Za-z0-9_]*`, the whole string. */
  predicate IsName(s: string) {
    s != "" && IsIdentStart(s[0]) && forall c :: c in s ==> IsIdentChar(c)
  }

  /** The longest identifier-character prefix. */
  function IdentRun(s: string): (n: nat)
    ensures n <= |s|
    ensures forall i :: 0 <= i < n ==> IsIdentChar(s[i])
    ensures n < |s| ==> !IsIdentChar(s[n])
  {
    if s != "" && IsIdentChar(s[0]) then 1 + IdentRun(s[1..]) else 0
  }

  /** The longest prefix that is a variable name; empty when there is none. */
  function NamePrefix(s: string): (name: string)
    ensures name <= s
    ensures name != "" ==> IsName(name)
  {
    if s != "" && IsIdentStart(s[0]) then s[..IdentRun(s)] else ""
  }

  /** A run is fixed by its characters and by what stops it. */
  lemma {:induction false} IdentRunIs(name: string, rest: string)
    requires forall c :: c in name ==> IsIdentChar(c)
    requires rest == "" || !IsIdentChar(rest[0])
    ensures IdentRun(name + rest) == |name|
  {
    if name == "" {
      assert name + rest == rest;
    } else {
      IdentRunIs(name[1..], rest);
      assert (name + rest)[1..] == name[1..] + rest;
    }
  }

  function Decimal(n: nat): (s: string)
    ensures s != "" && forall c :: c in s ==> '0' <= c <= '9'
  {
    if n < 10 then [Digit(n)] else Decimal(n / 10) + [Digit(n % 10)]
  }

  function Digit(n: nat): (c: char)
    requires n < 10
    ensures '0' <= c <= '9'
  {
    ('0' as int + n) as char
  }

  predicate AllDigits(s: string) {
    s != "" && forall c :: c in s ==> '0' <= c <= '9'
  }

  /** What a string of decimal digits stands for. */
  function NumberOf(digits: string): nat
    requires AllDigits(digits)
  {
    var init, last := digits[..|digits| - 1], digits[|digits| - 1];
    assert last in digits && forall c :: c in init ==> c in digits;
    (if init == "" then 0 else NumberOf(init) * 10) + (last as int - '0' as int)
  }

  /** Printing a number and reading it again gives the number; only zero starts with a zero. */
  lemma {:induction false} DecimalReadsBack(n: nat)
    ensures NumberOf(Decimal(n)) == n
    ensures Decimal(n)[0] == '0' ==> n == 0 && Decimal(n) == "0"
  {
    if n >= 10 {
      DecimalReadsBack(n / 10);
      var s := Decimal(n);
      assert s[..|s| - 1] == Decimal(n / 10);
    }
  }

  /** A number without leading zeros is printed as it was written. */
  lemma {:induction false} NumberPrintsBack(digits: string)
    requires AllDigits(digits) && (digits[0] == '0' ==> |digits| == 1)
    ensures Decimal(NumberOf(digits)) == digits
    ensures digits[0] != '0' ==> NumberOf(digits) >= 1
  {
    var last := digits[|digits| - 1];
    assert last in digits;
    assert Digit(last as int - '0' as int) == last;
    if |digits| > 1 {
      var init := digits[..|digits| - 1];
      assert init[0] == digits[0] && forall c :: c in init ==> c in digits;
      NumberPrintsBack(init);
      assert digits == init + [last];
      assert NumberOf(digits) / 10 == NumberOf(init) && NumberOf(digits) % 10 == last as int - '0' as int;
    } else {
      assert digits == [last];
    }
  }

  /** Distinct numbers print differently, so numbered names never coincide. */
  lemma {:induction false} DecimalInjective(m: nat, n: nat)
    requires Decimal(m) == Decimal(n)
    ensures m == n
  {
    var s, t := Decimal(m), Decimal(n);
    assert s[|s| - 1] == Digit(m % 10) && t[|t| - 1] == Digit(n % 10);
    assert m % 10 == n % 10;
    assert s[..|s| - 1] == (if m < 10 then "" else Decimal(m / 10));
    assert t[..|t| - 1] == (if n < 10 then "" else Decimal(n / 10));
    if m >= 10 && n >= 10 {
      DecimalInjective(m / 10, n / 10);
    }
  }
}
