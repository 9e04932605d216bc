/** The few Python `str` operations the uploader relies on, over `seq<char>`. */
module Text {

  /** `s.startswith(t)` */
  predicate StartsWith(s: string, t: string)
  {
    |t| <= |s| && s[..|t|] == t
  }

  /** `s.endswith(t)` */
  predicate EndsWith(s: string, t: string)
  {
    |t| <= |s| && s[|s| - |t|..] == t
  }

  /** `t in s`: `t` occurs in `s` as a contiguous substring, scanned from the left. */
  predicate Contains(s: string, t: string)
  {
    StartsWith(s, t) || (s != [] && Contains(s[1..], t))
  }

  /** Reference meaning of `Contains`: some window of `s` equals `t`. */
  ghost predicate OccursAt(s: string, t: string, i: int)
  {
    0 <= i && i + |t| <= |s| && s[i..i + |t|] == t
  }

  lemma {:induction false} ContainsIffOccurs(s: string, t: string)
    ensures Contains(s, t) <==> exists i :: OccursAt(s, t, i)
  {
    if StartsWith(s, t) {
      assert OccursAt(s, t, 0);
    } else if s == [] {
    } else {
      ContainsIffOccurs(s[1..], t);
      if Contains(s[1..], t) {
        var j :| OccursAt(s[1..], t, j);
        OccursShift(s, t, j + 1);
      } else {
        forall i | OccursAt(s, t, i) ensures i >= 1 && OccursAt(s[1..], t, i - 1) {
          assert s[0..|t|] == s[..|t|];
          OccursShift(s, t, i);
        }
      }
    }
  }

  /** Dropping the first character moves every window one place to the left. */
  lemma OccursShift(s: string, t: string, i: int)
    requires s != [] && i >= 1
    ensures OccursAt(s, t, i) <==> OccursAt(s[1..], t, i - 1)
  {
    if i + |t| <= |s| {
      var w, v := s[i..i + |t|], s[1..][i - 1..i - 1 + |t|];
      assert |w| == |v| == |t|;
      forall k | 0 <= k < |t| ensures w[k] == v[k] {
        assert w[k] == s[i + k] && v[k] == s[1..][i - 1 + k];
      }
      assert w == v;
    }
  }

  /** A string built around `t` contains `t`. */
  lemma {:induction false} ContainsInMiddle(a: string, t: string, b: string)
    ensures Contains(a + t + b, t)
  {
    if a == [] {
      assert (a + t + b)[..|t|] == t;
    } else {
      ContainsInMiddle(a[1..], t, b);
      assert (a + t + b)[1..] == a[1..] + t + b;
    }
  }

  /** Every `c` in `s` replaced by `d`, every other character kept: the meaning of
      `d.join(s.split(c))` for a one-character separator. */
  function ReplaceAll(s: string, c: char, d: char): (r: string)
    ensures |r| == |s|
    ensures forall i :: 0 <= i < |s| ==> r[i] == (if s[i] == c then d else s[i])
  {
    if s == [] then [] else [if s[0] == c then d else s[0]] + ReplaceAll(s[1..], c, d)
  }

  /** `s.split(c)` for a one-character separator: always at least one part, and no part
      holds the separator. */
  function Split(s: string, c: char): (parts: seq<string>)
    ensures |parts| >= 1
    ensures forall i :: 0 <= i < |parts| ==> c !in parts[i]
  {
    if s == [] then [[]]
    else if s[0] == c then [[]] + Split(s[1..], c)
    else
      var rest := Split(s[1..], c);
      [[s[0]] + rest[0]] + rest[1..]
  }

  /** `[d].join(parts)` */
  function Join(parts: seq<string>, d: char): string
  {
    if parts == [] then []
    else if |parts| == 1 then parts[0]
    else parts[0] + [d] + Join(parts[1..], d)
  }

  lemma JoinConsHead(a: char, parts: seq<string>, d: char)
    requires |parts| >= 1
    ensures Join([[a] + parts[0]] + parts[1..], d) == [a] + Join(parts, d)
  {
    var ps := [[a] + parts[0]] + parts[1..];
    assert ps[1..] == parts[1..];
  }

  /** Splitting on `c` and joining with `d` replaces each `c` by `d`, one for one. */
  lemma {:induction false} JoinSplit(s: string, c: char, d: char)
    ensures Join(Split(s, c), d) == ReplaceAll(s, c, d)
  {
    if s == [] {
    } else if s[0] == c {
      JoinSplit(s[1..], c, d);
      var ps := [[]] + Split(s[1..], c);
      assert ps[1..] == Split(s[1..], c);
    } else {
      JoinSplit(s[1..], c, d);
      JoinConsHead(s[0], Split(s[1..], c), d);
    }
  }

  /** One decimal digit. */
  function Digit(n: nat): char
    requires n < 10
  {
    "0123456789"[n]
  }

  /** Python's `'%d' % n` for a non-negative integer. */
  function Decimal(n: nat): (r: string)
    ensures 1 <= |r|
    ensures forall i :: 0 <= i < |r| ==> '0' <= r[i] <= '9'
  {
    if n < 10 then [Digit(n)] else Decimal(n / 10) + [Digit(n % 10)]
  }

  /** The value a decimal string denotes; the partner of `Decimal`. */
  function DecimalValue(s: string): nat
  {
    if s == [] then 0
    else 10 * DecimalValue(s[..|s| - 1]) + (if '0' <= s[|s| - 1] <= '9' then (s[|s| - 1] - '0') as nat else 0)
  }

  lemma {:induction false} DecimalRoundTrip(n: nat)
    ensures DecimalValue(Decimal(n)) == n
  {
    var r := Decimal(n);
    if n < 10 {
      assert r[..0] == [];
    } else {
      DecimalRoundTrip(n / 10);
      assert r[..|r| - 1] == Decimal(n / 10);
    }
  }
}
