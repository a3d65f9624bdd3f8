/** String operations of Python and JavaScript that the pipeline relies on,
    stated on `string` (a sequence of Unicode code points). */
module Text {
  import opened Outcomes

  // ---------------------------------------------------------------------------
  // Substring search: Python's `p in s`, JavaScript's `s.includes(p)`
  // ---------------------------------------------------------------------------

  /** `p` occurs somewhere in `s` (the empty pattern occurs everywhere). */
  predicate Contains(s: string, p: string)
    decreases |s|
  {
    p <= s || (|s| > 0 && Contains(s[1..], p))
  }

  /** `p` occurs in `s` starting at index `i`. */
  predicate OccursAt(s: string, p: string, i: nat)
  {
    i + |p| <= |s| && s[i..i + |p|] == p
  }

  /** `Contains` agrees with "some slice of `s` equals `p`". */
  lemma {:induction false} ContainsIff(s: string, p: string)
    ensures Contains(s, p) <==> exists i: nat :: OccursAt(s, p, i)
    decreases |s|
  {
    if p <= s {
      assert OccursAt(s, p, 0);
    } else if |s| == 0 {
    } else {
      ContainsIff(s[1..], p);
      if Contains(s[1..], p) {
        var i: nat :| OccursAt(s[1..], p, i);
        assert OccursAt(s, p, i + 1);
      }
      if exists i: nat :: OccursAt(s, p, i) {
        var i: nat :| OccursAt(s, p, i);
        if i == 0 {
          assert false;
        }
        assert OccursAt(s[1..], p, i - 1);
      }
    }
  }

  /** An occurrence of `p` in a piece `t` of `s` is an occurrence in `s`,
      shifted by where the piece sits. */
  lemma OccursWithin(s: string, t: string, i: nat, p: string, j: nat)
    requires OccursAt(s, t, i) && OccursAt(t, p, j)
    ensures OccursAt(s, p, i + j)
  {
    forall n | 0 <= n < |p|
      ensures s[i + j + n] == p[n]
    {
      assert s[i..i + |t|][j + n] == t[j + n];
      assert t[j..j + |p|][n] == t[j + n];
    }
    assert s[i + j..i + j + |p|] == p;
  }

  /** A template with one slot: the fixed head at 0, the filling at the
      head's length, and the fixed tail right after the filling. */
  lemma ThreePieces(a: string, b: string, c: string)
    ensures var s := a + b + c;
            && |s| == |a| + |b| + |c|
            && OccursAt(s, a, 0)
            && OccursAt(s, b, |a|)
            && OccursAt(s, c, |a| + |b|)
  {
    var s := a + b + c;
    assert s[..|a|] == a;
    assert s[|a|..|a| + |b|] == b;
    assert s[|a| + |b|..|s|] == c;
  }

  /** A template with two slots, `b` and `d`, between fixed pieces `a`, `c` and `e`. */
  lemma FivePieces(a: string, b: string, c: string, d: string, e: string)
    ensures var s := a + b + c + d + e;
            && |s| == |a| + |b| + |c| + |d| + |e|
            && OccursAt(s, a, 0)
            && OccursAt(s, b, |a|)
            && OccursAt(s, c, |a| + |b|)
            && OccursAt(s, d, |a| + |b| + |c|)
            && OccursAt(s, e, |a| + |b| + |c| + |d|)
  {
    var s := a + b + c + d + e;
    assert s[..|a|] == a;
    assert s[|a|..|a| + |b|] == b;
    assert s[|a| + |b|..|a| + |b| + |c|] == c;
    assert s[|a| + |b| + |c|..|a| + |b| + |c| + |d|] == d;
    assert s[|a| + |b| + |c| + |d|..|s|] == e;
  }

  /** An occurrence inside one operand is an occurrence in the concatenation. */
  lemma ContainsAppend(s: string, t: string, p: string)
    requires Contains(s, p)
    ensures Contains(s + t, p) && Contains(t + s, p)
  {
    ContainsIff(s, p);
    var i: nat :| OccursAt(s, p, i);
    assert (s + t)[i..i + |p|] == p;
    assert (t + s)[|t| + i..|t| + i + |p|] == p;
    assert OccursAt(s + t, p, i) && OccursAt(t + s, p, |t| + i);
    ContainsIff(s + t, p);
    ContainsIff(t + s, p);
  }

  // ---------------------------------------------------------------------------
  // sep.join(parts)
  // ---------------------------------------------------------------------------

  /** Python's `sep.join(parts)`: the parts in order, `sep` between neighbours. */
  function Join(parts: seq<string>, sep: string): (r: string)
    ensures |parts| == 0 ==> r == []
    ensures |parts| == 1 ==> r == parts[0]
  {
    if |parts| == 0 then []
    else if |parts| == 1 then parts[0]
    else parts[0] + sep + Join(parts[1..], sep)
  }

  /** Joining is associative over a cut of the part list. */
  lemma {:induction false} JoinSplitAt(parts: seq<string>, sep: string, k: nat)
    requires 0 < k < |parts|
    ensures Join(parts, sep) == Join(parts[..k], sep) + sep + Join(parts[k..], sep)
    decreases k
  {
    if k > 1 {
      JoinSplitAt(parts[1..], sep, k - 1);
      assert parts[1..][..k - 1] == parts[1..k];
      assert parts[1..][k - 1..] == parts[k..];
      assert parts[..k][1..] == parts[1..k];
    }
  }

  /** The length of a join: every part once and `|parts| - 1` separators. */
  lemma {:induction false} JoinLength(parts: seq<string>, sep: string)
    requires |parts| > 0
    ensures |Join(parts, sep)| == SumLengths(parts) + (|parts| - 1) * |sep|
  {
    if |parts| > 1 {
      JoinLength(parts[1..], sep);
    }
  }

  function SumLengths(parts: seq<string>): nat
  {
    if |parts| == 0 then 0 else |parts[0]| + SumLengths(parts[1..])
  }

  // ---------------------------------------------------------------------------
  // Whitespace trimming: Python's str.strip() and JavaScript's String.trim()
  // ---------------------------------------------------------------------------

  /** Python's `str.isspace()` for a single code point. */
  predicate IsPythonSpace(c: char)
  {
    var n := c as int;
    (0x09 <= n <= 0x0D) || (0x1C <= n <= 0x20) || n == 0x85 || n == 0xA0 || n == 0x1680
    || (0x2000 <= n <= 0x200A) || n == 0x2028 || n == 0x2029 || n == 0x202F || n == 0x205F || n == 0x3000
  }

  /** The characters JavaScript's `trim()` removes: WhiteSpace and LineTerminator
      of the ECMAScript grammar (this set has U+FEFF, and lacks U+001C..U+001F and U+0085). */
  predicate IsJsSpace(c: char)
  {
    var n := c as int;
    (0x09 <= n <= 0x0D) || n == 0x20 || n == 0xA0 || n == 0x1680 || (0x2000 <= n <= 0x200A)
    || n == 0x2028 || n == 0x2029 || n == 0x202F || n == 0x205F || n == 0x3000 || n == 0xFEFF
  }

  /** Drops the longest prefix made of `ws` characters. */
  function TrimStart(s: string, ws: char -> bool): string
    decreases |s|
  {
    if |s| > 0 && ws(s[0]) then TrimStart(s[1..], ws) else s
  }

  /** Drops the longest suffix made of `ws` characters. */
  function TrimEnd(s: string, ws: char -> bool): string
    decreases |s|
  {
    if |s| > 0 && ws(s[|s| - 1]) then TrimEnd(s[..|s| - 1], ws) else s
  }

  /** `TrimStart` leaves a suffix of `s`, removes only `ws` characters, and
      stops at the first other one. */
  lemma {:induction false} TrimStartSuffix(s: string, ws: char -> bool)
    ensures var r := TrimStart(s, ws);
            && |r| <= |s| && r == s[|s| - |r|..]
            && (forall k :: 0 <= k < |s| - |r| ==> ws(s[k]))
            && (r == [] || !ws(r[0]))
    decreases |s|
  {
    if |s| > 0 && ws(s[0]) {
      TrimStartSuffix(s[1..], ws);
    }
  }

  /** `TrimEnd` leaves a prefix of `s`, removes only `ws` characters, and
      stops at the last other one. */
  lemma {:induction false} TrimEndPrefix(s: string, ws: char -> bool)
    ensures var r := TrimEnd(s, ws);
            && |r| <= |s| && r == s[..|r|]
            && (forall k :: |r| <= k < |s| ==> ws(s[k]))
            && (r == [] || !ws(r[|r| - 1]))
    decreases |s|
  {
    if |s| > 0 && ws(s[|s| - 1]) {
      TrimEndPrefix(s[..|s| - 1], ws);
    }
  }

  /** Strips `ws` characters from both ends. */
  function Trim(s: string, ws: char -> bool): string
  {
    TrimEnd(TrimStart(s, ws), ws)
  }

  /** What trimming means: the result is the slice `s[i..j]` that remains after
      removing only `ws` characters around it, and it neither starts nor ends
      with one. */
  lemma TrimIsSlice(s: string, ws: char -> bool) returns (i: nat, j: nat)
    ensures i <= j <= |s| && Trim(s, ws) == s[i..j]
    ensures forall k :: 0 <= k < i ==> ws(s[k])
    ensures forall k :: j <= k < |s| ==> ws(s[k])
    ensures i < j ==> !ws(s[i]) && !ws(s[j - 1])
  {
    var t := TrimStart(s, ws);
    TrimStartSuffix(s, ws);
    TrimEndPrefix(t, ws);
    i := |s| - |t|;
    j := i + |TrimEnd(t, ws)|;
    assert forall k :: j <= k < |s| ==> s[k] == t[k - i];
  }

  /** A string trims to nothing exactly when it is made only of `ws` characters. */
  lemma TrimEmptyIff(s: string, ws: char -> bool)
    ensures Trim(s, ws) == [] <==> forall k :: 0 <= k < |s| ==> ws(s[k])
  {
    var i, j := TrimIsSlice(s, ws);
    if Trim(s, ws) == [] {
      forall k | 0 <= k < |s| ensures ws(s[k]) {
        assert k < i || j <= k;
      }
    }
  }

  /** Trimming twice is trimming once. */
  lemma TrimIdempotent(s: string, ws: char -> bool)
    ensures Trim(Trim(s, ws), ws) == Trim(s, ws)
  {
    var t := Trim(s, ws);
    var i, j := TrimIsSlice(t, ws);
    var i0, j0 := TrimIsSlice(s, ws);
    assert i == 0 && j == |t|;
  }

  /** The converse view: whatever `ws` prefix and suffix surround a core that
      neither starts nor ends with a `ws` character, trimming yields that core. */
  lemma TrimAround(pre: string, core: string, post: string, ws: char -> bool)
    requires forall k :: 0 <= k < |pre| ==> ws(pre[k])
    requires forall k :: 0 <= k < |post| ==> ws(post[k])
    requires |core| > 0 && !ws(core[0]) && !ws(core[|core| - 1])
    ensures Trim(pre + core + post, ws) == core
  {
    var s := pre + core + post;
    var a, b := |pre|, |pre| + |core|;
    var i, j := TrimIsSlice(s, ws);
    assert s[a] == core[0] && s[b - 1] == core[|core| - 1];
    assert forall k :: 0 <= k < a ==> s[k] == pre[k];
    assert forall k :: b <= k < |s| ==> s[k] == post[k - b];
    assert i <= a && b <= j;
    assert s[a..b] == core;
  }

  /** Python's `str.strip()` with no argument. */
  function PyStrip(s: string): string
  {
    Trim(s, IsPythonSpace)
  }

  /** JavaScript's `String.prototype.trim()`. */
  function JsTrim(s: string): string
  {
    Trim(s, IsJsSpace)
  }

  // ---------------------------------------------------------------------------
  // Case
  // ---------------------------------------------------------------------------

  /** Lower-cases the ASCII letters `A`..`Z` and leaves every other code point alone. */
  function LowerAscii(s: string): (r: string)
    ensures |r| == |s|
    ensures forall k :: 0 <= k < |s| ==> r[k] == (if 'A' <= s[k] <= 'Z' then (s[k] as int + 32) as char else s[k])
  {
    if |s| == 0 then [] else [if 'A' <= s[0] <= 'Z' then (s[0] as int + 32) as char else s[0]] + LowerAscii(s[1..])
  }

  // ---------------------------------------------------------------------------
  // str.replace(p, "")
  // ---------------------------------------------------------------------------

  /** Python's `s.replace(p, "")`: a left-to-right scan that deletes every
      non-overlapping occurrence of `p`; occurrences created by a deletion are
      not deleted. */
  function RemoveAll(s: string, p: string): (r: string)
    requires |p| > 0
    ensures |r| <= |s|
    decreases |s|
  {
    if |s| == 0 then []
    else if p <= s then RemoveAll(s[|p|..], p)
    else [s[0]] + RemoveAll(s[1..], p)
  }

  /** A string with no occurrence of `p` is left unchanged. */
  lemma {:induction false} RemoveAllAbsent(s: string, p: string)
    requires |p| > 0 && !Contains(s, p)
    ensures RemoveAll(s, p) == s
    decreases |s|
  {
    if |s| > 0 {
      RemoveAllAbsent(s[1..], p);
      assert [s[0]] + s[1..] == s;
    }
  }

  // ---------------------------------------------------------------------------
  // str(i) for a natural number
  // ---------------------------------------------------------------------------

  function DigitChar(d: nat): (c: char)
    requires d < 10
    ensures '0' <= c <= '9' && c as int - '0' as int == d
  {
    (d + '0' as int) as char
  }

  /** Python's `str(n)` for `n >= 0`: decimal digits, no leading zero. */
  function NatToString(n: nat): (r: string)
    ensures |r| >= 1
    ensures forall k :: 0 <= k < |r| ==> '0' <= r[k] <= '9'
    ensures |r| > 1 ==> r[0] != '0'
    decreases n
  {
    if n < 10 then [DigitChar(n)] else NatToString(n / 10) + [DigitChar(n % 10)]
  }

  /** Reads a string of decimal digits back as a number (`int(s)`). */
  function DecimalValue(s: string): nat
    requires forall k :: 0 <= k < |s| ==> '0' <= s[k] <= '9'
  {
    if |s| == 0 then 0 else DecimalValue(s[..|s| - 1]) * 10 + (s[|s| - 1] as int - '0' as int)
  }

  /** `int(str(n)) == n`. */
  lemma {:induction false} DecimalValueOfNatToString(n: nat)
    ensures DecimalValue(NatToString(n)) == n
    decreases n
  {
    var r := NatToString(n);
    if n >= 10 {
      DecimalValueOfNatToString(n / 10);
      assert r[..|r| - 1] == NatToString(n / 10);
    }
  }

  /** Distinct numbers have distinct decimal strings. */
  lemma NatToStringInjective(a: nat, b: nat)
    ensures NatToString(a) == NatToString(b) ==> a == b
  {
    DecimalValueOfNatToString(a);
    DecimalValueOfNatToString(b);
  }

  // ---------------------------------------------------------------------------
  // The first keyword, in table order, that a question contains
  // ---------------------------------------------------------------------------

  /** The response paired with the first keyword of `table` that occurs in
      `question`, or `None` when no keyword occurs. */
  function FirstMatch(question: string, table: seq<(string, string)>): Option<string>
  {
    if |table| == 0 then None
    else if Contains(question, table[0].0) then Some(table[0].1)
    else FirstMatch(question, table[1..])
  }

  /** `FirstMatch` picks the response of the first keyword that occurs, and
      answers `None` exactly when none occurs. */
  lemma {:induction false} FirstMatchIsFirst(question: string, table: seq<(string, string)>)
    ensures FirstMatch(question, table).None? <==> forall k :: 0 <= k < |table| ==> !Contains(question, table[k].0)
    ensures forall k :: 0 <= k < |table| && Contains(question, table[k].0)
                        && (forall j :: 0 <= j < k ==> !Contains(question, table[j].0))
                        ==> FirstMatch(question, table) == Some(table[k].1)
  {
    if |table| > 0 && !Contains(question, table[0].0) {
      FirstMatchIsFirst(question, table[1..]);
      forall k | 0 <= k < |table| && Contains(question, table[k].0)
                 && (forall j :: 0 <= j < k ==> !Contains(question, table[j].0))
        ensures FirstMatch(question, table) == Some(table[k].1)
      {
        assert k > 0 && table[1..][k - 1] == table[k];
        assert forall j :: 0 <= j < k - 1 ==> table[1..][j] == table[j + 1];
      }
    }
  }

  /** The keywords of a response table, in table order. */
  function Keywords(table: seq<(string, string)>): seq<string>
  {
    seq(|table|, k requires 0 <= k < |table| => table[k].0)
  }

  /** Two tables with the same keywords in the same order fall back on their
      default for the same questions. */
  lemma SameKeywordsSameMiss(question: string, t1: seq<(string, string)>, t2: seq<(string, string)>)
    requires Keywords(t1) == Keywords(t2)
    ensures FirstMatch(question, t1).None? <==> FirstMatch(question, t2).None?
  {
    FirstMatchIsFirst(question, t1);
    FirstMatchIsFirst(question, t2);
    assert |t1| == |Keywords(t1)| == |Keywords(t2)| == |t2|;
    forall k | 0 <= k < |t1|
      ensures t1[k].0 == t2[k].0
    {
      assert Keywords(t1)[k] == Keywords(t2)[k];
    }
  }

  /** The keyword scan as a loop that returns on the first hit. */
  method FirstKeywordResponse(question: string, table: seq<(string, string)>) returns (r: Option<string>)
    ensures r == FirstMatch(question, table)
    ensures r.None? <==> forall k :: 0 <= k < |table| ==> !Contains(question, table[k].0)
  {
    FirstMatchIsFirst(question, table);
    var i := 0;
    while i < |table|
      invariant 0 <= i <= |table|
      invariant forall j :: 0 <= j < i ==> !Contains(question, table[j].0)
    {
      if Contains(question, table[i].0) {
        return Some(table[i].1);
      }
      i := i + 1;
    }
    return None;
  }
}
