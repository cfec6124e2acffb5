/**
 What the rest of the model rests on: options and faults, and the string operations (trimming, splitting and joining,
 decimal printing and parsing, and the byte order on strings).
 */
module Text {

  datatype Option<+T> = None | Some(value: T)

  /** A store call that fails may fail before or after its write took effect. */
  datatype Fault = Fine | FailsUnwritten | FailsWritten

  /** A canonical form such as "trimmed and lower-cased": applying it twice changes nothing more. */
  type Normalizer = f: string -> string | forall s :: f(f(s)) == f(s) ghost witness (s: string) => s

  // ---------------------------------------------------------------- trimming

  /** Unicode White_Space, the characters that strings.TrimSpace removes. */
  predicate IsSpace(c: char) {
    c in {'\t', '\n', '\U{0B}', '\U{0C}', '\r', ' ', '\U{85}', '\U{A0}', '\U{1680}',
          '\U{2028}', '\U{2029}', '\U{202F}', '\U{205F}', '\U{3000}'}
    || '\U{2000}' <= c <= '\U{200A}'
  }

  function TrimLeft(s: string): (r: string)
    ensures |r| <= |s|
    ensures r == "" || !IsSpace(r[0])
    ensures s != "" && !IsSpace(s[0]) ==> r == s
  {
    if s == "" then "" else if IsSpace(s[0]) then TrimLeft(s[1..]) else s
  }

  function TrimRight(s: string): (r: string)
    ensures r <= s
    ensures r == "" || !IsSpace(r[|r| - 1])
    ensures s != "" && !IsSpace(s[|s| - 1]) ==> r == s
  {
    if s == "" then "" else if IsSpace(s[|s| - 1]) then TrimRight(s[..|s| - 1]) else s
  }

  /** strings.TrimSpace. */
  function Trim(s: string): (r: string)
    ensures r == "" || (!IsSpace(r[0]) && !IsSpace(r[|r| - 1]))
    ensures s == "" || (!IsSpace(s[0]) && !IsSpace(s[|s| - 1])) ==> r == s
  {
    TrimRight(TrimLeft(s))
  }

  lemma TrimIdempotent(s: string)
    ensures Trim(Trim(s)) == Trim(s)
  {
  }

  ghost predicate AllSpace(s: string) { forall i :: 0 <= i < |s| ==> IsSpace(s[i]) }

  lemma {:induction false} TrimLeftMeans(s: string) returns (left: string)
    ensures AllSpace(left) && s == left + TrimLeft(s)
  {
    if s != "" && IsSpace(s[0]) {
      left := TrimLeftMeans(s[1..]);
      left := [s[0]] + left;
      assert s == [s[0]] + s[1..];
    } else {
      left := "";
    }
  }

  lemma {:induction false} TrimRightMeans(s: string) returns (right: string)
    ensures AllSpace(right) && s == TrimRight(s) + right
  {
    if s != "" && IsSpace(s[|s| - 1]) {
      right := TrimRightMeans(s[..|s| - 1]);
      right := right + [s[|s| - 1]];
      assert s == s[..|s| - 1] + [s[|s| - 1]];
    } else {
      right := "";
    }
  }

  /** Trimming takes away outer spaces and nothing else. */
  lemma TrimMeans(s: string) returns (left: string, right: string)
    ensures AllSpace(left) && AllSpace(right) && s == left + Trim(s) + right
  {
    left := TrimLeftMeans(s);
    right := TrimRightMeans(TrimLeft(s));
  }

  /** Neither end is a space. */
  ghost predicate Bare(s: string) { s == "" || (!IsSpace(s[0]) && !IsSpace(s[|s| - 1])) }

  lemma BareText(s: string)
    ensures Bare(s) ==> Trim(s) == s
  {
  }

  lemma {:induction false} TrimLeftSkips(left: string, s: string)
    requires AllSpace(left)
    ensures TrimLeft(left + s) == TrimLeft(s)
  {
    if left == "" {
      assert left + s == s;
    } else {
      assert (left + s)[1..] == left[1..] + s && IsSpace((left + s)[0]);
      TrimLeftSkips(left[1..], s);
    }
  }

  lemma {:induction false} TrimRightSkips(s: string, right: string)
    requires AllSpace(right)
    ensures TrimRight(s + right) == TrimRight(s)
  {
    if right == "" {
      assert s + right == s;
    } else {
      var whole := s + right;
      assert whole[..|whole| - 1] == s + right[..|right| - 1] && IsSpace(whole[|whole| - 1]);
      TrimRightSkips(s, right[..|right| - 1]);
    }
  }

  /** What stands bare between outer spaces is the trimmed text. */
  lemma TrimUnique(left: string, middle: string, right: string)
    requires AllSpace(left) && AllSpace(right) && Bare(middle)
    ensures Trim(left + middle + right) == middle
  {
    assert left + middle + right == left + (middle + right);
    TrimLeftSkips(left, middle + right);
    if middle == "" {
      assert middle + right == right + "";
      TrimLeftSkips(right, "");
    } else {
      assert (middle + right)[0] == middle[0];
      TrimRightSkips(middle, right);
    }
  }

  /** Behind a character that is no space, only the end of what follows is trimmed. */
  lemma {:induction false} TrimRightBehind(front: string, s: string)
    requires front != "" && !IsSpace(front[|front| - 1])
    ensures TrimRight(front + s) == front + TrimRight(s)
  {
    if s == "" {
      assert front + s == front;
    } else {
      var whole := front + s;
      assert whole[..|whole| - 1] == front + s[..|s| - 1] && whole[|whole| - 1] == s[|s| - 1];
      if IsSpace(s[|s| - 1]) { TrimRightBehind(front, s[..|s| - 1]); }
    }
  }

  // ---------------------------------------------------------------- splitting

  /** strings.Split for a one-character separator: never empty. */
  function Split(s: string, sep: char): (parts: seq<string>)
    ensures |parts| >= 1
    decreases |s|
  {
    if s == "" then [""]
    else
      var rest := Split(s[1..], sep);
      if s[0] == sep then [""] + rest else [[s[0]] + rest[0]] + rest[1..]
  }

  /** strings.Join for a one-character separator. */
  function Join(parts: seq<string>, sep: char): string {
    if |parts| == 0 then ""
    else if |parts| == 1 then parts[0]
    else parts[0] + [sep] + Join(parts[1..], sep)
  }

  lemma JoinPrepend(c: char, parts: seq<string>, sep: char)
    requires |parts| >= 1
    ensures Join([[c] + parts[0]] + parts[1..], sep) == [c] + Join(parts, sep)
  {
    var longer := [[c] + parts[0]] + parts[1..];
    assert longer[1..] == parts[1..];
    if |parts| > 1 {
      var rest := Join(parts[1..], sep);
      assert ([c] + parts[0]) + [sep] + rest == [c] + (parts[0] + [sep] + rest);
    }
  }

  lemma {:induction false} JoinSplit(s: string, sep: char)
    ensures Join(Split(s, sep), sep) == s
    decreases |s|
  {
    if s != "" {
      var rest := Split(s[1..], sep);
      JoinSplit(s[1..], sep);
      assert s == [s[0]] + s[1..];
      if s[0] == sep {
        assert ([""] + rest)[1..] == rest;
      } else {
        JoinPrepend(s[0], rest, sep);
      }
    }
  }

  lemma {:induction false} SplitWithout(s: string, sep: char)
    requires sep !in s
    ensures Split(s, sep) == [s]
    decreases |s|
  {
    if s != "" {
      SplitWithout(s[1..], sep);
      assert s == [s[0]] + s[1..];
    }
  }

  /** Splitting a string that ends in a separator-free tail peels that tail off as the last part. */
  lemma {:induction false} SplitSnoc(s: string, tail: string, sep: char)
    requires sep !in tail
    ensures Split(s + [sep] + tail, sep) == Split(s, sep) + [tail]
    decreases |s|
  {
    var whole := s + [sep] + tail;
    if s == "" {
      assert whole[1..] == tail;
      SplitWithout(tail, sep);
    } else {
      assert whole[1..] == s[1..] + [sep] + tail;
      SplitSnoc(s[1..], tail, sep);
    }
  }

  /** Splitting at a separator splits either side. */
  lemma {:induction false} SplitAppend(x: string, y: string, sep: char)
    ensures Split(x + [sep] + y, sep) == Split(x, sep) + Split(y, sep)
    decreases |x|
  {
    var whole := x + [sep] + y;
    if x == "" {
      assert whole[1..] == y;
    } else {
      assert whole[1..] == x[1..] + [sep] + y;
      SplitAppend(x[1..], y, sep);
    }
  }

  lemma {:induction false} JoinAppend(xs: seq<string>, ys: seq<string>, sep: char)
    requires xs != [] && ys != []
    ensures Join(xs + ys, sep) == Join(xs, sep) + [sep] + Join(ys, sep)
  {
    if |xs| == 1 {
      assert (xs + ys)[1..] == ys;
    } else {
      assert (xs + ys)[1..] == xs[1..] + ys;
      JoinAppend(xs[1..], ys, sep);
      Reassociate(xs[0], Join(xs[1..], sep), Join(ys, sep), sep);
    }
  }

  lemma Reassociate(x: string, y: string, z: string, sep: char)
    ensures x + [sep] + (y + [sep] + z) == (x + [sep] + y) + [sep] + z
  {
  }

  lemma {:induction false} SplitJoin(parts: seq<string>, sep: char)
    requires parts != [] && forall i :: 0 <= i < |parts| ==> sep !in parts[i]
    ensures Split(Join(parts, sep), sep) == parts
  {
    SplitWithout(parts[0], sep);
    if |parts| > 1 {
      SplitJoin(parts[1..], sep);
      SplitAppend(parts[0], Join(parts[1..], sep), sep);
    }
  }

  lemma {:induction false} JoinBare(parts: seq<string>, sep: char)
    requires parts != [] && !IsSpace(sep) && forall i :: 0 <= i < |parts| ==> Bare(parts[i])
    ensures Bare(Join(parts, sep))
  {
    assert Bare(parts[0]);
    if |parts| > 1 {
      JoinBare(parts[1..], sep);
      var s, rest := Join(parts, sep), Join(parts[1..], sep);
      assert s[0] == if parts[0] == "" then sep else parts[0][0];
      assert s[|s| - 1] == if rest == "" then sep else rest[|rest| - 1];
    }
  }

  /** The second pair cuts later: what its first part has more, the first pair's second part begins with. */
  ghost predicate CutsLater(a: string, b: string, c: string, d: string, sep: char) {
    exists x: string :: c == a + [sep] + x && b == x + [sep] + d
  }

  /** Two pairs read alike with a separator between them exactly if they are the same or cut at another separator. */
  lemma PairsAlikeExactly(a: string, b: string, c: string, d: string, sep: char)
    ensures a + [sep] + b == c + [sep] + d <==>
      (a == c && b == d) || CutsLater(a, b, c, d, sep) || CutsLater(c, d, a, b, sep)
  {
    if a + [sep] + b == c + [sep] + d {
      if |a| == |c| {
        SameCut(a, b, c, d, sep);
      } else if |a| < |c| {
        LaterCut(a, b, c, d, sep);
      } else {
        LaterCut(c, d, a, b, sep);
      }
    }
    if x: string :| c == a + [sep] + x && b == x + [sep] + d { Reassociate(a, x, d, sep); }
    if x: string :| a == c + [sep] + x && d == x + [sep] + b { Reassociate(c, x, b, sep); }
  }

  lemma SameCut(a: string, b: string, c: string, d: string, sep: char)
    requires a + [sep] + b == c + [sep] + d && |a| == |c|
    ensures a == c && b == d
  {
    var s, t := a + [sep] + b, c + [sep] + d;
    assert a == s[..|a|] == t[..|a|] == c;
    assert b == s[|a| + 1..] == t[|a| + 1..] == d;
  }

  lemma LaterCut(a: string, b: string, c: string, d: string, sep: char)
    requires a + [sep] + b == c + [sep] + d && |a| < |c|
    ensures CutsLater(a, b, c, d, sep)
  {
    var s, x := c + [sep] + d, c[|a| + 1..];
    assert s[..|a|] == a && s[|a|] == sep && s[|a| + 1..] == b;
    assert s[..|a|] == c[..|a|] && s[|a|] == c[|a|] && s[|a| + 1..] == x + [sep] + d;
    assert c == a + [sep] + x;
  }

  lemma CutsAtSeparator(a: string, b: string, c: string, d: string, sep: char)
    ensures CutsLater(a, b, c, d, sep) ==> sep in c && sep in b
  {
    if x: string :| c == a + [sep] + x && b == x + [sep] + d { assert c[|a|] == sep && b[|x|] == sep; }
  }

  /** No cut is left open where both first parts, or both second parts, hold no separator. */
  lemma PairsUnlike(a: string, b: string, c: string, d: string, sep: char)
    requires (sep !in a && sep !in c) || (sep !in b && sep !in d)
    ensures a + [sep] + b == c + [sep] + d <==> a == c && b == d
  {
    PairsAlikeExactly(a, b, c, d, sep);
    CutsAtSeparator(a, b, c, d, sep);
    CutsAtSeparator(c, d, a, b, sep);
    hide CutsLater;
  }

  lemma {:induction false} SplitSeparatorTwoParts(s: string, sep: char)
    requires sep in s
    ensures |Split(s, sep)| >= 2
    decreases |s|
  {
    if s[0] != sep {
      assert s == [s[0]] + s[1..];
      SplitSeparatorTwoParts(s[1..], sep);
    }
  }

  // ---------------------------------------------------------------- decimals

  const MAX_INT: int := 0x7FFF_FFFF_FFFF_FFFF

  predicate IsDigit(c: char) { '0' <= c <= '9' }

  function Digit(d: nat): (c: char)
    requires d < 10
    ensures IsDigit(c) && c as int - '0' as int == d
  {
    ('0' as int + d) as char
  }

  /** strconv.Itoa on non-negative numbers. */
  function Itoa(n: nat): (s: string)
    ensures s != "" && forall i :: 0 <= i < |s| ==> IsDigit(s[i])
  {
    if n < 10 then [Digit(n)] else Itoa(n / 10) + [Digit(n % 10)]
  }

  function ParseDigits(s: string): (r: Option<int>)
    ensures r.Some? ==> r.value >= 0
  {
    if s == "" || !IsDigit(s[|s| - 1]) then None
    else
      var last := s[|s| - 1] as int - '0' as int;
      if |s| == 1 then Some(last)
      else match ParseDigits(s[..|s| - 1])
        case None => None
        case Some(front) => Some(10 * front + last)
  }

  /** strconv.Atoi: an optional sign, then digits, within 64 bits. */
  function Atoi(s: string): Option<int> {
    var negative := s != "" && s[0] == '-';
    var digits := if negative || (s != "" && s[0] == '+') then s[1..] else s;
    match ParseDigits(digits)
    case None => None
    case Some(n) =>
      var value: int := if negative then 0 - n else n;
      if -MAX_INT - 1 <= value <= MAX_INT then Some(value) else None
  }

  lemma {:induction false} ParseDigitsItoa(n: nat)
    ensures ParseDigits(Itoa(n)) == Some(n)
  {
    if n >= 10 {
      var s := Itoa(n);
      assert s[..|s| - 1] == Itoa(n / 10);
      ParseDigitsItoa(n / 10);
    }
  }

  lemma ItoaInjective(m: nat, n: nat)
    requires Itoa(m) == Itoa(n)
    ensures m == n
  {
    ParseDigitsItoa(m);
    ParseDigitsItoa(n);
  }

  // ---------------------------------------------------------------- order

  /** The order of Go's < on strings: UTF-8 keeps the order of code points. */
  predicate AtMost(a: string, b: string) {
    a == "" || (b != "" && (a[0] < b[0] || (a[0] == b[0] && AtMost(a[1..], b[1..]))))
  }

  /** The first `k` characters agree, and then `a` ends or has the smaller character. */
  predicate Precedes(a: string, b: string, k: nat) {
    k <= |a| && k <= |b| && a[..k] == b[..k] && (k == |a| || (k < |b| && a[k] < b[k]))
  }

  lemma PrecedesStart(a: string, b: string, k: nat)
    ensures Precedes(a, b, k) && k > 0 ==> a != "" && b != "" && a[0] == b[0]
  {
    if Precedes(a, b, k) && k > 0 { assert a[..k][0] == b[..k][0]; }
  }

  /** Lexicographic: at the first difference the smaller character decides, and a beginning comes before the whole. */
  lemma {:induction false} AtMostMeans(a: string, b: string)
    ensures AtMost(a, b) <==> exists k: nat :: Precedes(a, b, k)
  {
    if a == "" {
      assert Precedes(a, b, 0);
    } else if b != "" && a[0] == b[0] {
      AtMostMeans(a[1..], b[1..]);
      if k: nat :| Precedes(a[1..], b[1..], k) {
        assert a[..k + 1] == [a[0]] + a[1..][..k] && b[..k + 1] == [b[0]] + b[1..][..k];
        assert Precedes(a, b, k + 1);
      }
      if k: nat :| Precedes(a, b, k) {
        assert k > 0;
        assert a[1..][..k - 1] == a[..k][1..] && b[1..][..k - 1] == b[..k][1..];
        assert Precedes(a[1..], b[1..], k - 1);
      }
    } else {
      if b != "" && a[0] < b[0] { assert Precedes(a, b, 0); }
      forall k: nat | Precedes(a, b, k) ensures k == 0 {
        PrecedesStart(a, b, k);
      }
    }
  }

  lemma {:induction false} AtMostTotal(a: string, b: string)
    ensures AtMost(a, b) || AtMost(b, a)
  {
    if a != "" && b != "" && a[0] == b[0] { AtMostTotal(a[1..], b[1..]); }
  }

  lemma {:induction false} AtMostAntisymmetric(a: string, b: string)
    requires AtMost(a, b) && AtMost(b, a)
    ensures a == b
  {
    if a != "" && b != "" {
      AtMostAntisymmetric(a[1..], b[1..]);
      assert a == [a[0]] + a[1..] && b == [b[0]] + b[1..];
    }
  }

  lemma {:induction false} AtMostTransitive(a: string, b: string, c: string)
    requires AtMost(a, b) && AtMost(b, c)
    ensures AtMost(a, c)
  {
    if a != "" && a[0] == b[0] == c[0] { AtMostTransitive(a[1..], b[1..], c[1..]); }
  }
}
