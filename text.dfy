/** The string operations of Rust's standard library that the core relies on:
    `rsplit_once`, `split_once`, `push_str` in a loop and `u64::to_string`. */
module Text {
  import opened Prelude

  /** `sep` occurs in `s` starting at index `i`. */
  ghost predicate OccursAt(s: string, sep: string, i: nat)
  {
    i + |sep| <= |s| && s[i..i + |sep|] == sep
  }

  /** `sep` occurs nowhere in `s`. */
  ghost predicate Absent(s: string, sep: string)
  {
    forall j: nat :: !OccursAt(s, sep, j)
  }

  /** `tail` is the text that follows the last occurrence of `sep` in `s`. */
  ghost predicate AfterLast(s: string, sep: string, tail: string)
  {
    && |sep| + |tail| <= |s|
    && s[|s| - |tail| - |sep|..] == sep + tail
    && forall j :: |s| - |tail| - |sep| < j <= |s| ==> !OccursAt(s, sep, j)
  }

  /** `head` is the text that precedes the first occurrence of `sep` in `s`. */
  ghost predicate BeforeFirst(s: string, sep: string, head: string)
  {
    && |head| + |sep| <= |s|
    && s[..|head| + |sep|] == head + sep
    && forall j :: 0 <= j < |head| ==> !OccursAt(s, sep, j)
  }

  /** The start of the last occurrence of `sep` in `s` that starts below `k`. */
  function LastIndexBelow(s: string, sep: string, k: nat): (r: Option<nat>)
    ensures r.Some? ==> r.value < k && OccursAt(s, sep, r.value)
    ensures r.Some? ==> forall j :: r.value < j < k ==> !OccursAt(s, sep, j)
    ensures r.None? ==> forall j :: 0 <= j < k ==> !OccursAt(s, sep, j)
  {
    if k == 0 then None
    else if k - 1 + |sep| <= |s| && s[k - 1..k - 1 + |sep|] == sep then Some(k - 1)
    else LastIndexBelow(s, sep, k - 1)
  }

  /** The start of the first occurrence of `sep` in `s` at or after `k`. */
  function FirstIndexFrom(s: string, sep: string, k: nat): (r: Option<nat>)
    ensures r.Some? ==> k <= r.value && OccursAt(s, sep, r.value)
    ensures r.Some? ==> forall j :: k <= j < r.value ==> !OccursAt(s, sep, j)
    ensures r.None? ==> forall j :: k <= j ==> !OccursAt(s, sep, j)
    decreases |s| + 1 - k
  {
    if k > |s| then None
    else if k + |sep| <= |s| && s[k..k + |sep|] == sep then Some(k)
    else FirstIndexFrom(s, sep, k + 1)
  }

  /** `str::rsplit_once(sep)`: the text before and after the last occurrence of `sep`. */
  function RSplitOnce(s: string, sep: string): (r: Option<(string, string)>)
    requires |sep| > 0
    ensures r.None? <==> Absent(s, sep)
    ensures r.Some? ==> s == r.value.0 + sep + r.value.1 && AfterLast(s, sep, r.value.1)
  {
    match LastIndexBelow(s, sep, |s| + 1)
    case None => None
    case Some(i) =>
      assert s == s[..i] + s[i..i + |sep|] + s[i + |sep|..];
      Some((s[..i], s[i + |sep|..]))
  }

  /** `str::split_once(sep)`: the text before and after the first occurrence of `sep`. */
  function SplitOnce(s: string, sep: string): (r: Option<(string, string)>)
    requires |sep| > 0
    ensures r.None? <==> Absent(s, sep)
    ensures r.Some? ==> s == r.value.0 + sep + r.value.1 && BeforeFirst(s, sep, r.value.0)
  {
    match FirstIndexFrom(s, sep, 0)
    case None => None
    case Some(i) =>
      assert s == s[..i] + s[i..i + |sep|] + s[i + |sep|..];
      Some((s[..i], s[i + |sep|..]))
  }

  /** A one-character separator occurs exactly where that character does. */
  lemma AbsentChar(s: string, c: char)
    ensures Absent(s, [c]) <==> c !in s
  {
    if c in s {
      var i :| 0 <= i < |s| && s[i] == c;
      assert s[i..i + 1] == [c];
      assert OccursAt(s, [c], i);
    } else {
      forall j: nat ensures !OccursAt(s, [c], j) {
        if j + 1 <= |s| {
          assert s[j..j + 1][0] == s[j];
        }
      }
    }
  }

  /** A separator that occurs nowhere has no text after its last occurrence. */
  lemma AbsentNoAfterLast(s: string, sep: string)
    requires Absent(s, sep)
    ensures forall t :: !AfterLast(s, sep, t)
  {
    forall t | AfterLast(s, sep, t) ensures false {
      var p := |s| - |t| - |sep|;
      assert s[p..][..|sep|] == sep;
      assert s[p..p + |sep|] == s[p..][..|sep|];
      assert OccursAt(s, sep, p);
    }
  }

  /** The text after the last occurrence of a separator is determined by the string. */
  lemma {:induction false} AfterLastUnique(s: string, sep: string, t: string, u: string)
    requires AfterLast(s, sep, t) && AfterLast(s, sep, u)
    ensures t == u
  {
    var p, q := |s| - |t| - |sep|, |s| - |u| - |sep|;
    assert s[p..][..|sep|] == sep;
    assert s[q..][..|sep|] == sep;
    assert s[p..p + |sep|] == s[p..][..|sep|];
    assert s[q..q + |sep|] == s[q..][..|sep|];
    assert OccursAt(s, sep, p) && OccursAt(s, sep, q);
    assert p == q;
    assert t == s[p..][|sep|..] == u;
  }

  /** Every text after the last occurrence of a separator equals a known one. */
  lemma AfterLastIsUnique(s: string, sep: string, t: string)
    requires AfterLast(s, sep, t)
    ensures forall u :: AfterLast(s, sep, u) ==> u == t
  {
    forall u | AfterLast(s, sep, u) ensures u == t {
      AfterLastUnique(s, sep, t, u);
    }
  }

  /** The text after the last occurrence of a one-character separator does not hold it. */
  lemma {:induction false} AfterLastCharFree(s: string, c: char, tail: string)
    requires AfterLast(s, [c], tail)
    ensures c !in tail
  {
    if c in tail {
      var k :| 0 <= k < |tail| && tail[k] == c;
      var p := |s| - |tail| - 1;
      assert s[p..] == [c] + tail;
      assert s[p + 1 + k] == c;
      assert s[p + 1 + k..p + 1 + k + 1] == [c];
      assert OccursAt(s, [c], p + 1 + k);
    }
  }

  /** Splitting `head + c + tail` at its last `c`, when `tail` holds no `c`,
      gives back `head` and `tail`. */
  lemma {:induction false} RSplitOnceChar(head: string, c: char, tail: string)
    requires c !in tail
    ensures RSplitOnce(head + [c] + tail, [c]) == Some((head, tail))
  {
    var s := head + [c] + tail;
    assert s[|s| - |tail| - 1..] == [c] + tail;
    forall j | |s| - |tail| - 1 < j <= |s| ensures !OccursAt(s, [c], j) {
      if j + 1 <= |s| {
        assert s[j..j + 1][0] == s[j] == tail[j - |head| - 1];
      }
    }
    assert AfterLast(s, [c], tail);
    var r := RSplitOnce(s, [c]);
    assert s[|s| - |tail| - 1..|s| - |tail|] == [c];
    assert OccursAt(s, [c], |s| - |tail| - 1);
    AfterLastUnique(s, [c], tail, r.value.1);
    assert r.value.0 == s[..|s| - |tail| - 1] == head;
  }

  /** The strings concatenated in order, as a loop of `push_str` builds them. */
  function Concat(parts: seq<string>): (r: string)
    ensures parts != [] ==> parts[0] <= r
    ensures forall i :: 0 <= i < |parts| ==> |parts[i]| <= |r|
  {
    if parts == [] then "" else Concat(parts[..|parts| - 1]) + parts[|parts| - 1]
  }

  /** Appending the parts one by one gives the first part followed by the rest
      appended one by one. */
  lemma {:induction false} ConcatCons(p: string, rest: seq<string>)
    ensures Concat([p] + rest) == p + Concat(rest)
    decreases |rest|
  {
    if rest != [] {
      var front := rest[..|rest| - 1];
      assert ([p] + rest)[..|rest|] == [p] + front;
      ConcatCons(p, front);
    }
  }

  ghost predicate IsDigit(c: char)
  {
    '0' <= c <= '9'
  }

  function DigitChar(d: nat): (c: char)
    requires d < 10
    ensures IsDigit(c) && c as int - '0' as int == d
  {
    ('0' as int + d) as char
  }

  /** `u64::to_string`: the decimal digits of `n`, most significant first,
      with no leading zero. */
  function NatToString(n: nat): (r: string)
    ensures |r| > 0 && forall i :: 0 <= i < |r| ==> IsDigit(r[i])
    ensures r[0] == '0' ==> n == 0
    decreases n
  {
    if n < 10 then [DigitChar(n)] else NatToString(n / 10) + [DigitChar(n % 10)]
  }

  /** The number a string of decimal digits denotes. */
  function DecimalValue(s: string): nat
    requires forall i :: 0 <= i < |s| ==> IsDigit(s[i])
  {
    if s == [] then 0
    else
      assert IsDigit(s[|s| - 1]);
      DecimalValue(s[..|s| - 1]) * 10 + (s[|s| - 1] as int - '0' as int)
  }

  /** Reading the rendered digits back gives the number again. */
  lemma {:induction false} DecimalRoundTrip(n: nat)
    ensures DecimalValue(NatToString(n)) == n
    decreases n
  {
    var r := NatToString(n);
    if n >= 10 {
      DecimalRoundTrip(n / 10);
      assert r[..|r| - 1] == NatToString(n / 10);
    }
  }

  /** Distinct numbers are rendered as distinct strings. */
  lemma NatToStringInjective(m: nat, n: nat)
    ensures NatToString(m) == NatToString(n) <==> m == n
  {
    DecimalRoundTrip(m);
    DecimalRoundTrip(n);
  }
}
