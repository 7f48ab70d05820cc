/**
 The two string operations the scripts apply to recognised text:
 Python's `" ".join(texts)` and `str.strip()`, together with a
 separator split that undoes the join.
 */
module Text {

  /** Python's `str.isspace` for one character: the code points `str.strip()` removes. */
  predicate IsSpace(c: char)
  {
    var n := c as int;
    || (0x09 <= n <= 0x0D)
    || (0x1C <= n <= 0x20)
    || n == 0x85 || n == 0xA0 || n == 0x1680
    || (0x2000 <= n <= 0x200A)
    || n == 0x2028 || n == 0x2029 || n == 0x202F || n == 0x205F || n == 0x3000
  }

  /** Neither the first nor the last character is whitespace (vacuous for the empty string). */
  predicate NoEdgeSpace(s: string)
  {
    |s| == 0 || (!IsSpace(s[0]) && !IsSpace(s[|s| - 1]))
  }

  predicate AllSpace(s: string)
  {
    forall i :: 0 <= i < |s| ==> IsSpace(s[i])
  }

  /** The separator `" ".join` puts between texts. */
  const Sep: char := ' '

  /** Python's `" ".join(ts)`: the texts in order, one space between neighbours, "" for no texts. */
  function Join(ts: seq<string>): string
  {
    if |ts| == 0 then ""
    else if |ts| == 1 then ts[0]
    else ts[0] + [Sep] + Join(ts[1..])
  }

  /** Number of occurrences of c in s. */
  function Count(c: char, s: string): nat
  {
    if |s| == 0 then 0 else (if s[0] == c then 1 else 0) + Count(c, s[1..])
  }

  function CountAll(c: char, ts: seq<string>): nat
  {
    if |ts| == 0 then 0 else Count(c, ts[0]) + CountAll(c, ts[1..])
  }

  function TotalLength(ts: seq<string>): nat
  {
    if |ts| == 0 then 0 else |ts[0]| + TotalLength(ts[1..])
  }

  lemma {:induction false} CountAppend(c: char, a: string, b: string)
    ensures Count(c, a + b) == Count(c, a) + Count(c, b)
  {
    if |a| == 0 {
      assert a + b == b;
    } else {
      assert (a + b)[1..] == a[1..] + b;
      CountAppend(c, a[1..], b);
    }
  }

  /** Joining n >= 1 texts adds exactly n - 1 separators and nothing else. */
  lemma {:induction false} JoinAddsSeparators(ts: seq<string>)
    requires |ts| >= 1
    ensures Count(Sep, Join(ts)) == CountAll(Sep, ts) + |ts| - 1
    ensures |Join(ts)| == TotalLength(ts) + |ts| - 1
  {
    if |ts| > 1 {
      JoinAddsSeparators(ts[1..]);
      CountAppend(Sep, ts[0], [Sep] + Join(ts[1..]));
      CountAppend(Sep, [Sep], Join(ts[1..]));
      assert ts[0] + [Sep] + Join(ts[1..]) == ts[0] + ([Sep] + Join(ts[1..]));
      assert Count(Sep, [Sep]) == 1 by { assert [Sep][1..] == []; }
    }
  }

  /** Joining two non-empty runs of texts puts one separator between their joins. */
  lemma {:induction false} JoinAppend(a: seq<string>, b: seq<string>)
    requires |a| >= 1 && |b| >= 1
    ensures Join(a + b) == Join(a) + [Sep] + Join(b)
  {
    if |a| == 1 {
      assert (a + b)[1..] == b;
    } else {
      assert (a + b)[1..] == a[1..] + b;
      JoinAppend(a[1..], b);
    }
  }

  /** Split on every separator, as Python's `s.split(" ")`; always yields at least one piece. */
  function Split(s: string): (r: seq<string>)
    ensures |r| >= 1
  {
    if |s| == 0 then [""]
    else
      var rest := Split(s[1..]);
      if s[0] == Sep then [""] + rest
      else [[s[0]] + rest[0]] + rest[1..]
  }

  lemma {:induction false} SplitAfterWord(a: string, s: string)
    requires Sep !in a
    ensures Split(a + s) == [a + Split(s)[0]] + Split(s)[1..]
  {
    if |a| == 0 {
      assert a + s == s;
      assert a + Split(s)[0] == Split(s)[0];
    } else {
      assert (a + s)[1..] == a[1..] + s;
      SplitAfterWord(a[1..], s);
      assert [a[0]] + (a[1..] + Split(s)[0]) == a + Split(s)[0];
    }
  }

  /** Splitting undoes joining, provided no text contains the separator itself. */
  lemma {:induction false} SplitJoin(ts: seq<string>)
    requires |ts| >= 1
    requires forall i :: 0 <= i < |ts| ==> Sep !in ts[i]
    ensures Split(Join(ts)) == ts
  {
    if |ts| == 1 {
      SplitAfterWord(ts[0], "");
      assert ts[0] + "" == ts[0];
    } else {
      var tail := Join(ts[1..]);
      SplitJoin(ts[1..]);
      assert ts[0] + [Sep] + tail == ts[0] + ([Sep] + tail);
      SplitAfterWord(ts[0], [Sep] + tail);
      assert ([Sep] + tail)[1..] == tail;
      assert Split([Sep] + tail) == [""] + ts[1..];
      assert ts[0] + "" == ts[0];
      assert [ts[0]] + ts[1..] == ts;
    }
  }

  /** Python's `str.strip()` with no argument: remove whitespace from both ends. */
  function Strip(s: string): (r: string)
    ensures NoEdgeSpace(r)
    ensures |r| <= |s|
    decreases |s|
  {
    if |s| > 0 && IsSpace(s[0]) then Strip(s[1..])
    else if |s| > 0 && IsSpace(s[|s| - 1]) then Strip(s[..|s| - 1])
    else s
  }

  /**
   Strip keeps one contiguous window of its input and removes only
   whitespace around it.
   */
  lemma {:induction false} StripWindow(s: string) returns (lo: nat, hi: nat)
    ensures lo <= hi <= |s|
    ensures Strip(s) == s[lo..hi]
    ensures forall i :: 0 <= i < lo ==> IsSpace(s[i])
    ensures forall i :: hi <= i < |s| ==> IsSpace(s[i])
    decreases |s|
  {
    if |s| > 0 && IsSpace(s[0]) {
      var lo', hi' := StripWindow(s[1..]);
      lo, hi := lo' + 1, hi' + 1;
      assert s[1..][lo'..hi'] == s[lo..hi];
      forall i | 1 <= i < lo
        ensures IsSpace(s[i])
      {
        assert s[i] == s[1..][i - 1];
      }
      forall i | hi <= i < |s|
        ensures IsSpace(s[i])
      {
        assert s[i] == s[1..][i - 1];
      }
    } else if |s| > 0 && IsSpace(s[|s| - 1]) {
      lo, hi := StripWindow(s[..|s| - 1]);
      assert s[..|s| - 1][lo..hi] == s[lo..hi];
      forall i | hi <= i < |s|
        ensures IsSpace(s[i])
      {
        if i < |s| - 1 {
          assert s[i] == s[..|s| - 1][i];
        }
      }
    } else {
      lo, hi := 0, |s|;
      assert s[0..|s|] == s;
    }
  }

  /** A string with no whitespace at either end is its own strip. */
  lemma StripFixesNoEdgeSpace(s: string)
    requires NoEdgeSpace(s)
    ensures Strip(s) == s
  {
  }

  /** Stripping twice is stripping once. */
  lemma StripIdempotent(s: string)
    ensures Strip(Strip(s)) == Strip(s)
  {
  }

  /** Strip yields "" exactly when the input is all whitespace (the empty string included). */
  lemma StripEmptyIff(s: string)
    ensures Strip(s) == "" <==> AllSpace(s)
  {
  }

}
