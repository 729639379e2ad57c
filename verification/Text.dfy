/** The string operations of the Rust standard library that the server relies on. */
module Text {
  import opened Wrappers

  lemma Regroup<T>(a: seq<T>, b: seq<T>, c: seq<T>)
    ensures a + (b + c) == (a + b) + c
  {
  }

  lemma SameAppend<T>(a: seq<T>, b: seq<T>, c: seq<T>, d: seq<T>)
    requires |a| == |c|
    ensures a + b == c + d <==> a == c && b == d
  {
    assert (a + b)[..|a|] == a && (a + b)[|a|..] == b;
    assert (c + d)[..|c|] == c && (c + d)[|c|..] == d;
  }

  /** The index of the first character of `s` that lies in `seps`, or `|s|`. */
  function IndexOf(s: string, seps: set<char>): (i: nat)
    ensures i <= |s|
    ensures forall k :: 0 <= k < i ==> s[k] !in seps
    ensures i < |s| ==> s[i] in seps
  {
    if s == "" || s[0] in seps then 0 else 1 + IndexOf(s[1..], seps)
  }

  lemma IndexOfAt(s: string, seps: set<char>, i: nat)
    requires i <= |s| && forall k :: 0 <= k < i ==> s[k] !in seps
    requires i < |s| ==> s[i] in seps
    ensures IndexOf(s, seps) == i
  {
  }

  lemma IndexOfAppend(p: string, c: char, rest: string, seps: set<char>)
    requires Free(p, seps) && c in seps
    ensures IndexOf(p + [c] + rest, seps) == |p|
    ensures (p + [c] + rest)[..|p|] == p
    ensures (p + [c] + rest)[|p| + 1..] == rest
  {
    IndexOfAt(p + [c] + rest, seps, |p|);
  }

  predicate Free(s: string, seps: set<char>) {
    forall k :: 0 <= k < |s| ==> s[k] !in seps
  }

  lemma FreeAppend(a: string, b: string, seps: set<char>)
    ensures Free(a + b, seps) <==> Free(a, seps) && Free(b, seps)
  {
    assert forall k :: 0 <= k < |a| ==> (a + b)[k] == a[k];
    assert forall k :: 0 <= k < |b| ==> (a + b)[|a| + k] == b[k];
  }

  /** `str::split`: the pieces between separators, always at least one. */
  function Split(s: string, seps: set<char>): (parts: seq<string>)
    ensures |parts| >= 1
    ensures forall p :: p in parts ==> Free(p, seps)
    decreases |s|
  {
    var i := IndexOf(s, seps);
    if i == |s| then [s] else [s[..i]] + Split(s[i + 1..], seps)
  }

  /** `[str]::join` */
  function Join(parts: seq<string>, sep: string): string {
    if parts == [] then ""
    else if |parts| == 1 then parts[0]
    else parts[0] + sep + Join(parts[1..], sep)
  }

  lemma SplitOne(p: string, seps: set<char>)
    requires Free(p, seps)
    ensures Split(p, seps) == [p]
  {
    IndexOfAt(p, seps, |p|);
  }

  lemma SplitCons(p: string, c: char, rest: string, seps: set<char>)
    requires Free(p, seps) && c in seps
    ensures Split(p + [c] + rest, seps) == [p] + Split(rest, seps)
  {
    IndexOfAppend(p, c, rest, seps);
  }

  lemma SplitAtFirst(s: string, seps: set<char>)
    requires IndexOf(s, seps) < |s|
    ensures var i := IndexOf(s, seps); Split(s, seps) == [s[..i]] + Split(s[i + 1..], seps)
  {
  }

  lemma Around(s: string, i: nat)
    requires i < |s|
    ensures s == s[..i] + [s[i]] + s[i + 1..]
  {
  }

  /** Joining separator-free pieces and splitting again gives the pieces back. */
  lemma {:induction false} SplitJoin(parts: seq<string>, c: char, seps: set<char>)
    requires |parts| >= 1 && c in seps
    requires forall p :: p in parts ==> Free(p, seps)
    ensures Split(Join(parts, [c]), seps) == parts
  {
    if |parts| == 1 {
      SplitOne(parts[0], seps);
    } else {
      SplitCons(parts[0], c, Join(parts[1..], [c]), seps);
      SplitJoin(parts[1..], c, seps);
    }
  }

  /** `str::split_once` and, since it only ever asks for two pieces, `splitn(2, c)`. */
  function SplitOnce(s: string, c: char): (r: Option<(string, string)>)
    ensures r.None? <==> c !in s
    ensures r.Some? ==> s == r.value.0 + [c] + r.value.1 && c !in r.value.0
  {
    var i := IndexOf(s, {c});
    if i == |s| then None else Some((s[..i], s[i + 1..]))
  }

  lemma SplitOnceAt(p: string, c: char, rest: string)
    requires c !in p
    ensures SplitOnce(p + [c] + rest, c) == Some((p, rest))
  {
    IndexOfAppend(p, c, rest, {c});
  }

  /** The lines of a text whose line feeds, and a carriage return just before one, are dropped. */
  function Lines(s: string): (lines: seq<string>)
    decreases |s|
  {
    if s == "" then [] else
      var i := IndexOf(s, {'\n'});
      if i == |s| then [s] else [StripCr(s[..i])] + Lines(s[i + 1..])
  }

  function StripCr(s: string): string {
    if s != "" && s[|s| - 1] == '\r' then s[..|s| - 1] else s
  }

  lemma LinesCons(p: string, rest: string)
    requires '\n' !in p
    ensures Lines(p + ['\n'] + rest) == [StripCr(p)] + Lines(rest)
  {
    IndexOfAppend(p, '\n', rest, {'\n'});
  }

  lemma LinesConsCrLf(p: string, rest: string)
    requires '\n' !in p
    ensures Lines(p + "\r\n" + rest) == [p] + Lines(rest)
  {
    assert p + "\r\n" + rest == (p + ['\r']) + ['\n'] + rest;
    LinesCons(p + ['\r'], rest);
  }

  /** The Unicode White_Space property. */
  predicate IsWhitespace(c: char) {
    var n := c as int;
    9 <= n <= 13 || n == 0x20 || n == 0x85 || n == 0xA0 || n == 0x1680 || 0x2000 <= n <= 0x200A
    || n == 0x2028 || n == 0x2029 || n == 0x202F || n == 0x205F || n == 0x3000
  }

  predicate NoWhitespace(s: string) {
    forall k :: 0 <= k < |s| ==> !IsWhitespace(s[k])
  }

  function TrimStart(s: string): string {
    if s != "" && IsWhitespace(s[0]) then TrimStart(s[1..]) else s
  }

  function TrimEnd(s: string): string {
    if s != "" && IsWhitespace(s[|s| - 1]) then TrimEnd(s[..|s| - 1]) else s
  }

  /** `str::trim` */
  function Trim(s: string): string {
    TrimEnd(TrimStart(s))
  }

  /** Neither end of `s` is white space, so trimming leaves `s` alone. */
  predicate Trimmed(s: string) {
    s == "" || (!IsWhitespace(s[0]) && !IsWhitespace(s[|s| - 1]))
  }

  lemma TrimTrimmed(s: string)
    requires Trimmed(s)
    ensures Trim(s) == s
    ensures Trim(" " + s) == s
  {
    assert (" " + s)[1..] == s;
    assert TrimStart(" " + s) == TrimStart(s);
  }

  predicate AllWhitespace(s: string) {
    forall k :: 0 <= k < |s| ==> IsWhitespace(s[k])
  }

  lemma {:induction false} TrimStartAll(a: string, s: string)
    requires AllWhitespace(a)
    ensures TrimStart(a + s) == TrimStart(s)
  {
    if a == "" {
      assert a + s == s;
    } else {
      assert (a + s)[1..] == a[1..] + s;
      TrimStartAll(a[1..], s);
    }
  }

  lemma {:induction false} TrimEndAll(s: string, b: string)
    requires AllWhitespace(b)
    ensures TrimEnd(s + b) == TrimEnd(s)
  {
    if b == "" {
      assert s + b == s;
    } else {
      assert (s + b)[..|s + b| - 1] == s + b[..|b| - 1];
      TrimEndAll(s, b[..|b| - 1]);
    }
  }

  /** Exactly the white space around a text is cut off. */
  lemma TrimCuts(a: string, s: string, b: string)
    requires AllWhitespace(a) && AllWhitespace(b) && Trimmed(s)
    ensures Trim(a + s + b) == s
  {
    assert a + s + b == a + (s + b);
    TrimStartAll(a, s + b);
    if s == "" {
      assert s + b == b + "";
      TrimStartAll(b, "");
    } else {
      assert TrimStart(s + b) == s + b;
      TrimEndAll(s, b);
    }
  }

  /** `str::split_whitespace`: the nonempty pieces between runs of white space. */
  function SplitWhitespace(s: string): (words: seq<string>)
    decreases |s|
  {
    if s == "" then []
    else if IsWhitespace(s[0]) then SplitWhitespace(s[1..])
    else
      var n := WordLength(s);
      [s[..n]] + SplitWhitespace(s[n..])
  }

  function WordLength(s: string): (n: nat)
    ensures n <= |s| && NoWhitespace(s[..n])
    ensures n < |s| ==> IsWhitespace(s[n])
    ensures s != "" && !IsWhitespace(s[0]) ==> n > 0
  {
    if s == "" || IsWhitespace(s[0]) then 0 else 1 + WordLength(s[1..])
  }

  lemma SplitWhitespaceCons(w: string, c: char, rest: string)
    requires w != "" && NoWhitespace(w) && IsWhitespace(c)
    ensures SplitWhitespace(w + [c] + rest) == [w] + SplitWhitespace(rest)
  {
    var s := w + [c] + rest;
    WordLengthAt(s, |w|);
    assert s[..|w|] == w && s[|w|..] == [c] + rest && ([c] + rest)[1..] == rest;
  }

  lemma {:induction false} WordLengthAt(s: string, n: nat)
    requires n < |s| && NoWhitespace(s[..n]) && IsWhitespace(s[n])
    ensures WordLength(s) == n
  {
    if n > 0 {
      assert !IsWhitespace(s[..n][0]);
      assert s[..n][1..] == s[1..][..n - 1];
      WordLengthAt(s[1..], n - 1);
    }
  }

  /** The decimal digits of `n`, as `to_string` prints an unsigned integer. */
  function Decimal(n: nat): (s: string)
    ensures |s| >= 1 && AllDigits(s)
  {
    if n < 10 then [DigitChar(n)] else Decimal(n / 10) + [DigitChar(n % 10)]
  }

  lemma DecimalPlain(n: nat)
    ensures Free(Decimal(n), {':', '\n', '\r', '\0'})
  {
  }

  function DigitChar(d: nat): char
    requires d < 10
  {
    ('0' as int + d) as char
  }

  predicate IsDigit(c: char) {
    '0' <= c <= '9'
  }

  predicate AllDigits(s: string) {
    forall k :: 0 <= k < |s| ==> IsDigit(s[k])
  }

  function DecimalValue(s: string): nat
    requires AllDigits(s)
  {
    if s == "" then 0 else 10 * DecimalValue(s[..|s| - 1]) + (s[|s| - 1] as int - '0' as int)
  }

  /** `str::parse` for an unsigned integer below `limit`: one leading `+` is allowed. */
  function ParseUnsigned(s: string, limit: nat): Option<nat> {
    var digits := if s != "" && s[0] == '+' then s[1..] else s;
    if digits == "" || !AllDigits(digits) || DecimalValue(digits) >= limit then None
    else Some(DecimalValue(digits))
  }

  lemma {:induction false} DecimalValueDecimal(n: nat)
    ensures DecimalValue(Decimal(n)) == n
  {
    if n >= 10 {
      DecimalValueDecimal(n / 10);
      var s := Decimal(n);
      assert s[..|s| - 1] == Decimal(n / 10);
    }
  }

  lemma ParseDecimal(n: nat, limit: nat)
    requires n < limit
    ensures ParseUnsigned(Decimal(n), limit) == Some(n)
  {
    DecimalValueDecimal(n);
    assert IsDigit(Decimal(n)[0]);
  }

  lemma DecimalInjective(m: nat, n: nat)
    requires Decimal(m) == Decimal(n)
    ensures m == n
  {
    DecimalValueDecimal(m);
    DecimalValueDecimal(n);
  }
}
