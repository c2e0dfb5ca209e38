/** The pieces of PHP value semantics the subsite core depends on: nullable
    values, fatal errors, string truthiness, the `(int)` cast of a string,
    integer-to-string conversion, `join`/`explode`, and ordered associative
    arrays (`$a[$k] = $v`). */
module Php {

  /** A nullable PHP value: `None` is `null` (or an unset key). */
  datatype Option<+T> = None | Some(value: T)

  /** What stops a PHP call instead of a normal return. */
  datatype Error =
    | UserError(message: string)      // user_error(..., E_USER_ERROR)
    | CallOnNull(methodName: string)  // a method called on null
    | UndefinedMethod(methodName: string)
    | Uncaught(exception: string)     // an exception thrown by a collaborator

  /** The value of a PHP call: a normal return, or the error that ended it. */
  datatype Result<+T> = Success(value: T) | Failure(error: Error)

  /** `(bool)$s` for a string: only "" and "0" are false. */
  predicate Truthy(s: string) {
    s != "" && s != "0"
  }

  /** `(bool)$v` for a nullable string. */
  predicate TruthyOpt(v: Option<string>) {
    v.Some? && Truthy(v.value)
  }

  // ---------------------------------------------------------------------
  // (int) of a string, and (string) of an int

  const IntMax: int := 0x7fff_ffff_ffff_ffff
  const IntMin: int := -0x8000_0000_0000_0000

  predicate IsSpace(c: char) {
    c == ' ' || c == '\t' || c == '\n' || c == '\r' || c == '\U{000B}' || c == '\U{000C}'
  }

  predicate IsDigit(c: char) {
    '0' <= c <= '9'
  }

  predicate AllDigits(s: string) {
    forall i :: 0 <= i < |s| ==> IsDigit(s[i])
  }

  /** The string without its leading whitespace. */
  function SkipSpace(s: string): (t: string)
    ensures |t| <= |s| && t == s[|s| - |t|..]
    ensures t == [] || !IsSpace(t[0])
    ensures forall i :: 0 <= i < |s| - |t| ==> IsSpace(s[i])
  {
    if s != [] && IsSpace(s[0]) then SkipSpace(s[1..]) else s
  }

  /** The longest prefix of decimal digits. */
  function LeadingDigits(s: string): (d: string)
    ensures d <= s && AllDigits(d)
    ensures |d| == |s| || !IsDigit(s[|d|])
  {
    if s != [] && IsDigit(s[0]) then [s[0]] + LeadingDigits(s[1..]) else []
  }

  /** The number a string of decimal digits denotes. */
  function DigitsValue(d: string): nat
    requires AllDigits(d)
  {
    if d == [] then 0 else DigitsValue(d[..|d| - 1]) * 10 + (d[|d| - 1] as int - '0' as int)
  }

  /** An out-of-range value clamped to the 64-bit integer range. */
  function Saturate(n: int): (r: int)
    ensures IntMin <= r <= IntMax
    ensures IntMin <= n <= IntMax ==> r == n
    ensures n > IntMax ==> r == IntMax
    ensures n < IntMin ==> r == IntMin
  {
    if n < IntMin then IntMin else if n > IntMax then IntMax else n
  }

  /** `(int)$s`: leading whitespace, an optional sign, then the longest run
      of decimal digits (0 when there is none), saturated to 64 bits. */
  function IntCast(s: string): (r: int)
    ensures IntMin <= r <= IntMax
    ensures var t := SkipSpace(s);
      t == [] || !(IsDigit(t[0]) || t[0] == '-' || t[0] == '+') ==> r == 0
  {
    var t := SkipSpace(s);
    if t != [] && (t[0] == '-' || t[0] == '+') then
      var v: int := DigitsValue(LeadingDigits(t[1..]));
      Saturate(if t[0] == '-' then -v else v)
    else
      Saturate(DigitsValue(LeadingDigits(t)))
  }

  function DigitChar(d: nat): (c: char)
    requires d < 10
    ensures IsDigit(c) && c as int - '0' as int == d
  {
    ('0' as int + d) as char
  }

  /** The decimal digits of a natural number, without leading zeros. */
  function NatToString(n: nat): (s: string)
    ensures |s| > 0 && AllDigits(s)
  {
    if n < 10 then [DigitChar(n)] else NatToString(n / 10) + [DigitChar(n % 10)]
  }

  /** `(string)$n` for an integer. */
  function IntToString(n: int): (s: string)
    ensures s != [] && (s[0] == '-' || IsDigit(s[0]))
    ensures forall i :: 0 < i < |s| ==> IsDigit(s[i])
  {
    if n < 0 then "-" + NatToString(-n) else NatToString(n)
  }

  lemma {:induction false} DigitsValueOfNatToString(n: nat)
    ensures DigitsValue(NatToString(n)) == n
  {
    if n >= 10 {
      var s := NatToString(n / 10) + [DigitChar(n % 10)];
      assert s[..|s| - 1] == NatToString(n / 10);
      DigitsValueOfNatToString(n / 10);
    }
  }

  lemma {:induction false} LeadingDigitsOfDigits(s: string)
    requires AllDigits(s)
    ensures LeadingDigits(s) == s
  {
    if s != [] {
      LeadingDigitsOfDigits(s[1..]);
    }
  }

  /** Casting the decimal rendering of a 64-bit integer back gives the integer. */
  lemma IntCastOfIntToString(n: int)
    requires IntMin <= n <= IntMax
    ensures IntCast(IntToString(n)) == n
  {
    var s := IntToString(n);
    assert !IsSpace(s[0]);
    assert SkipSpace(s) == s;
    if n < 0 {
      var d := NatToString(-n);
      assert s[1..] == d;
      LeadingDigitsOfDigits(d);
      DigitsValueOfNatToString(-n);
      var v: int := DigitsValue(d);
      assert IntCast(s) == Saturate(-v);
    } else {
      assert s[0] != '-' && s[0] != '+';
      LeadingDigitsOfDigits(s);
      DigitsValueOfNatToString(n);
    }
  }

  // ---------------------------------------------------------------------
  // join and explode

  /** `join($sep, $parts)`. */
  function Join(parts: seq<string>, sep: string): string {
    if parts == [] then ""
    else if |parts| == 1 then parts[0]
    else parts[0] + sep + Join(parts[1..], sep)
  }

  /** `explode($sep, $s)` for a one-character separator. */
  function Explode(s: string, sep: char): (parts: seq<string>)
    ensures |parts| > 0
  {
    if s == [] then [""]
    else
      var rest := Explode(s[1..], sep);
      if s[0] == sep then [""] + rest else [[s[0]] + rest[0]] + rest[1..]
  }

  lemma {:induction false} ExplodeNoSep(a: string, sep: char)
    requires sep !in a
    ensures Explode(a, sep) == [a]
  {
    if a != [] {
      ExplodeNoSep(a[1..], sep);
      assert a[0] != sep;
      assert [a[0]] + a[1..] == a;
    }
  }

  lemma {:induction false} ExplodeSplitsAtSep(a: string, b: string, sep: char)
    requires sep !in a
    ensures Explode(a + [sep] + b, sep) == [a] + Explode(b, sep)
  {
    if a == [] {
      assert a + [sep] + b == [sep] + b;
      assert ([sep] + b)[1..] == b;
    } else {
      assert (a + [sep] + b)[1..] == a[1..] + [sep] + b;
      ExplodeSplitsAtSep(a[1..], b, sep);
      assert [a[0]] + a[1..] == a;
    }
  }

  /** Exploding on the separator undoes joining on it, as long as no part
      contains the separator. */
  lemma {:induction false} ExplodeJoin(parts: seq<string>, sep: char)
    requires |parts| > 0
    requires forall i :: 0 <= i < |parts| ==> sep !in parts[i]
    ensures Explode(Join(parts, [sep]), sep) == parts
  {
    if |parts| == 1 {
      ExplodeNoSep(parts[0], sep);
    } else {
      ExplodeJoin(parts[1..], sep);
      ExplodeSplitsAtSep(parts[0], Join(parts[1..], [sep]), sep);
      assert [parts[0]] + parts[1..] == parts;
    }
  }

  /** `join(',', $ids)` for a list of integers. */
  function JoinIds(ids: seq<int>): string {
    Join(seq(|ids|, i requires 0 <= i < |ids| => IntToString(ids[i])), ",")
  }

  /** A comma-separated ID list read back with `explode` and `(int)`. */
  function ParseIds(s: string): seq<int> {
    var parts := Explode(s, ',');
    seq(|parts|, i requires 0 <= i < |parts| => IntCast(parts[i]))
  }

  /** A non-empty list of 64-bit IDs survives being joined with commas and
      read back. */
  lemma ParseJoinIds(ids: seq<int>)
    requires |ids| > 0
    requires forall i :: 0 <= i < |ids| ==> IntMin <= ids[i] <= IntMax
    ensures ParseIds(JoinIds(ids)) == ids
  {
    var parts := seq(|ids|, i requires 0 <= i < |ids| => IntToString(ids[i]));
    forall i | 0 <= i < |parts| ensures ',' !in parts[i] {
      assert forall k :: 0 <= k < |parts[i]| ==> parts[i][k] != ',';
    }
    ExplodeJoin(parts, ',');
    forall i | 0 <= i < |ids| ensures IntCast(parts[i]) == ids[i] {
      IntCastOfIntToString(ids[i]);
    }
  }

  // ---------------------------------------------------------------------
  // Ordered associative arrays

  function Keys<K, V>(a: seq<(K, V)>): (ks: seq<K>)
    ensures |ks| == |a| && forall i :: 0 <= i < |a| ==> ks[i] == a[i].0
  {
    seq(|a|, i requires 0 <= i < |a| => a[i].0)
  }

  /** `$a[$k] ?? null`. */
  function Lookup<K(==), V>(a: seq<(K, V)>, k: K): Option<V> {
    if a == [] then None else if a[0].0 == k then Some(a[0].1) else Lookup(a[1..], k)
  }

  /** `$a[$k] = $v`: the entry for an existing key keeps its place, a new key
      is appended. */
  function Assign<K(==), V>(a: seq<(K, V)>, k: K, v: V): (r: seq<(K, V)>)
    ensures |a| <= |r| <= |a| + 1
  {
    if a == [] then [(k, v)]
    else if a[0].0 == k then [(k, v)] + a[1..]
    else [a[0]] + Assign(a[1..], k, v)
  }

  /** After `$a[$k] = $v`, `$a[$k]` is `$v` and every other key reads as before. */
  lemma {:induction false} AssignLookup<K, V>(a: seq<(K, V)>, k: K, v: V)
    ensures Lookup(Assign(a, k, v), k) == Some(v)
    ensures forall k' :: k' != k ==> Lookup(Assign(a, k, v), k') == Lookup(a, k')
  {
    if a != [] && a[0].0 != k {
      AssignLookup(a[1..], k, v);
    }
  }

  /** Assigning a key the array lacks appends one entry. */
  lemma {:induction false} AssignFresh<K, V>(a: seq<(K, V)>, k: K, v: V)
    requires k !in Keys(a)
    ensures Assign(a, k, v) == a + [(k, v)]
  {
    if a != [] {
      assert a[0].0 == Keys(a)[0];
      assert Keys(a[1..]) == Keys(a)[1..];
      AssignFresh(a[1..], k, v);
      assert [a[0]] + (a[1..] + [(k, v)]) == a + [(k, v)];
    }
  }

  /** Assignment keeps the key order, appending a key that was absent. */
  lemma {:induction false} AssignKeys<K, V>(a: seq<(K, V)>, k: K, v: V)
    ensures Keys(Assign(a, k, v)) == if k in Keys(a) then Keys(a) else Keys(a) + [k]
  {
    if a != [] {
      var r := Assign(a, k, v);
      assert Keys(a) == [a[0].0] + Keys(a[1..]);
      if a[0].0 == k {
        assert Keys(r) == [k] + Keys(a[1..]);
      } else {
        AssignKeys(a[1..], k, v);
        assert Keys(r) == [a[0].0] + Keys(Assign(a[1..], k, v));
        assert k in Keys(a) <==> k in Keys(a[1..]);
      }
    }
  }

  /** Assignment leaves every entry for another key where it was. */
  lemma {:induction false} AssignKeepsOthers<K, V>(a: seq<(K, V)>, k: K, v: V)
    ensures forall i :: 0 <= i < |a| && a[i].0 != k ==> Assign(a, k, v)[i] == a[i]
  {
    if a != [] && a[0].0 != k {
      AssignKeepsOthers(a[1..], k, v);
      var r := Assign(a, k, v);
      forall i | 0 <= i < |a| && a[i].0 != k ensures r[i] == a[i] {
        if i > 0 {
          assert r[i] == Assign(a[1..], k, v)[i - 1];
          assert a[i] == a[1..][i - 1];
        }
      }
    }
  }
}
