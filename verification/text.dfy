/** String primitives the source takes from JavaScript: `Number.prototype.toString`
    on non-negative integers, `padStart`, `trim`, `split`/`join` on one
    character, `includes`, and `toLowerCase` restricted to ASCII letters. */
module Text {
  import opened Wrappers
  import Seqs

  // ---------------------------------------------------------------- decimals

  predicate IsDigit(c: char) { '0' <= c <= '9' }

  function DigitValue(c: char): nat
    requires IsDigit(c)
  {
    (c as int - '0' as int) as nat
  }

  function DigitChar(d: nat): (c: char)
    requires d < 10
    ensures IsDigit(c) && DigitValue(c) == d
  {
    ('0' as int + d) as char
  }

  lemma DigitCharOfValue(c: char)
    requires IsDigit(c)
    ensures DigitChar(DigitValue(c)) == c
  {
  }

  predicate AllDigits(s: string)
  {
    forall i :: 0 <= i < |s| ==> IsDigit(s[i])
  }

  /** Value of a string of decimal digits, most significant first. */
  function DecimalValue(s: string): nat
    requires AllDigits(s)
  {
    if |s| == 0 then 0
    else DecimalValue(s[..|s| - 1]) * 10 + DigitValue(s[|s| - 1])
  }

  /** What `n.toString()` produces for a non-negative integer: digits only,
      no leading zero except for `0` itself. */
  predicate IsCanonicalDecimal(s: string)
  {
    |s| >= 1 && AllDigits(s) && (|s| > 1 ==> s[0] != '0')
  }

  /** `n.toString()` for a non-negative integer `n`. */
  function NatToString(n: nat): (s: string)
    ensures IsCanonicalDecimal(s)
    ensures DecimalValue(s) == n
    ensures n < 10 <==> |s| == 1
  {
    if n < 10 then [DigitChar(n)]
    else
      var p := NatToString(n / 10);
      var s := p + [DigitChar(n % 10)];
      assert s[..|s| - 1] == p;
      s
  }

  /** Reading a canonical decimal back and printing it gives the same string. */
  lemma {:induction false} NatToStringOfValue(s: string)
    requires IsCanonicalDecimal(s)
    ensures NatToString(DecimalValue(s)) == s
  {
    var n := DecimalValue(s);
    if |s| == 1 {
      assert s[..0] == "";
      assert n == DigitValue(s[0]) < 10;
    } else {
      var p := s[..|s| - 1];
      assert IsCanonicalDecimal(p);
      DecimalValueLeadingDigit(p);
      NatToStringOfValue(p);
      assert n / 10 == DecimalValue(p);
      assert n % 10 == DigitValue(s[|s| - 1]);
      assert s == p + [s[|s| - 1]];
    }
  }

  lemma {:induction false} DecimalValueLeadingDigit(s: string)
    requires AllDigits(s) && |s| >= 1 && s[0] != '0'
    ensures DecimalValue(s) >= 1
  {
    if |s| > 1 {
      DecimalValueLeadingDigit(s[..|s| - 1]);
    }
  }

  /** `s.padStart(width, c)`: left-pads with `c` up to `width` characters. */
  function PadStart(s: string, width: nat, c: char): (r: string)
    ensures |r| == if |s| >= width then |s| else width
    ensures r[|r| - |s|..] == s
    ensures forall i :: 0 <= i < |r| - |s| ==> r[i] == c
    decreases width - |s|
  {
    if |s| >= width then s else PadStart([c] + s, width, c)
  }

  // -------------------------------------------------------------- whitespace

  /** ECMAScript WhiteSpace and LineTerminator code points: what `trim` removes. */
  predicate IsWhitespace(c: char)
  {
    c == '\t' || c == '\n' || c == '\U{000B}' || c == '\U{000C}' || c == '\r' || c == ' '
    || c == '\U{00A0}' || c == '\U{1680}' || ('\U{2000}' <= c <= '\U{200A}')
    || c == '\U{2028}' || c == '\U{2029}' || c == '\U{202F}' || c == '\U{205F}'
    || c == '\U{3000}' || c == '\U{FEFF}'
  }

  predicate AllWhitespace(s: string)
  {
    forall i :: 0 <= i < |s| ==> IsWhitespace(s[i])
  }

  /** Length of the run of whitespace that opens `s`. */
  function LeadingWhitespace(s: string): (n: nat)
    ensures n <= |s|
  {
    if |s| > 0 && IsWhitespace(s[0]) then 1 + LeadingWhitespace(s[1..]) else 0
  }

  /** The opening run is all whitespace. */
  lemma {:induction false} LeadingWhitespaceAll(s: string)
    ensures AllWhitespace(s[..LeadingWhitespace(s)])
  {
    if |s| > 0 && IsWhitespace(s[0]) {
      var m := LeadingWhitespace(s[1..]);
      LeadingWhitespaceAll(s[1..]);
      WhitespaceConcat([s[0]], s[1..][..m]);
      assert s[..m + 1] == [s[0]] + s[1..][..m];
    } else {
      assert s[..0] == [];
    }
  }

  /** The opening run stops at the first other character. */
  lemma {:induction false} LeadingWhitespaceMaximal(s: string)
    ensures LeadingWhitespace(s) < |s| ==> !IsWhitespace(s[LeadingWhitespace(s)])
  {
    if |s| > 0 && IsWhitespace(s[0]) {
      LeadingWhitespaceMaximal(s[1..]);
    }
  }

  /** Length of the run of whitespace that closes `s`. */
  function TrailingWhitespace(s: string): (n: nat)
    ensures n <= |s|
  {
    if |s| > 0 && IsWhitespace(s[|s| - 1]) then 1 + TrailingWhitespace(s[..|s| - 1]) else 0
  }

  /** The closing run is all whitespace. */
  lemma {:induction false} TrailingWhitespaceAll(s: string)
    ensures AllWhitespace(s[|s| - TrailingWhitespace(s)..])
  {
    if |s| > 0 && IsWhitespace(s[|s| - 1]) {
      var p := s[..|s| - 1];
      var m := TrailingWhitespace(p);
      TrailingWhitespaceAll(p);
      var q := p[|p| - m..];
      WhitespaceAppend(q, s[|s| - 1]);
      assert s[|s| - (m + 1)..] == q + [s[|s| - 1]];
    } else {
      assert s[|s|..] == [];
    }
  }

  /** The closing run stops at the last other character. */
  lemma {:induction false} TrailingWhitespaceMaximal(s: string)
    ensures TrailingWhitespace(s) < |s| ==> !IsWhitespace(s[|s| - TrailingWhitespace(s) - 1])
  {
    if |s| > 0 && IsWhitespace(s[|s| - 1]) {
      var p := s[..|s| - 1];
      var m := TrailingWhitespace(p);
      TrailingWhitespaceMaximal(p);
      if m + 1 < |s| {
        assert s[|s| - (m + 1) - 1] == p[|p| - m - 1];
      }
    }
  }

  /** `s.trim()`: `s` without its leading and trailing whitespace. */
  function Trim(s: string): (r: string)
    ensures |r| <= |s|
    ensures |r| > 0 ==> !IsWhitespace(r[0]) && !IsWhitespace(r[|r| - 1])
  {
    var a := LeadingWhitespace(s);
    var b := TrailingWhitespace(s[a..]);
    if a + b < |s| then
      TrimFirst(s, a);
      TrimLast(s, a, b);
      s[a..|s| - b]
    else
      s[a..|s| - b]
  }

  lemma TrimFirst(s: string, a: nat)
    requires a == LeadingWhitespace(s) && a < |s|
    ensures !IsWhitespace(s[a])
  {
    LeadingWhitespaceMaximal(s);
  }

  lemma TrimLast(s: string, a: nat, b: nat)
    requires a <= |s| && b == TrailingWhitespace(s[a..]) && a + b < |s|
    ensures !IsWhitespace(s[|s| - b - 1])
  {
    var t := s[a..];
    TrailingWhitespaceMaximal(t);
    assert s[|s| - b - 1] == t[|t| - b - 1];
  }

  /** The whitespace `Trim` removes in front of and behind its result. */
  lemma TrimParts(s: string) returns (p: string, q: string)
    ensures s == p + Trim(s) + q && AllWhitespace(p) && AllWhitespace(q)
  {
    var a := LeadingWhitespace(s);
    var b := TrailingWhitespace(s[a..]);
    LeadingWhitespaceAll(s);
    TrailingSlice(s, a);
    p, q := s[..a], s[|s| - b..];
    Slices3(s, a, |s| - b);
  }

  /** The trailing run of a suffix of `s` is whitespace at the end of `s`. */
  lemma TrailingSlice(s: string, a: nat)
    requires a <= |s|
    ensures TrailingWhitespace(s[a..]) <= |s| - a
    ensures AllWhitespace(s[|s| - TrailingWhitespace(s[a..])..])
  {
    var t := s[a..];
    var b := TrailingWhitespace(t);
    TrailingWhitespaceAll(t);
    assert t[|t| - b..] == s[|s| - b..];
  }

  lemma Slices3<T>(s: seq<T>, i: nat, j: nat)
    requires i <= j <= |s|
    ensures s == s[..i] + s[i..j] + s[j..]
  {
  }

  /** A whitespace prefix in front of a part that does not open with
      whitespace is exactly the leading run. */
  lemma {:induction false} LeadingOfPadded(s: string, p: string, rest: string)
    requires s == p + rest && AllWhitespace(p)
    requires |rest| > 0 ==> !IsWhitespace(rest[0])
    ensures LeadingWhitespace(s) == |p|
    decreases |p|
  {
    if |p| > 0 {
      assert s[0] == p[0];
      assert s[1..] == p[1..] + rest;
      LeadingOfPadded(s[1..], p[1..], rest);
    } else {
      assert s == rest;
    }
  }

  /** A whitespace suffix behind a part that does not close with whitespace
      is exactly the trailing run. */
  lemma {:induction false} TrailingOfPadded(s: string, rest: string, q: string)
    requires s == rest + q && AllWhitespace(q)
    requires |rest| > 0 ==> !IsWhitespace(rest[|rest| - 1])
    ensures TrailingWhitespace(s) == |q|
    decreases |q|
  {
    if |q| > 0 {
      assert s[|s| - 1] == q[|q| - 1];
      assert s[..|s| - 1] == rest + q[..|q| - 1];
      TrailingOfPadded(s[..|s| - 1], rest, q[..|q| - 1]);
    } else {
      assert s == rest;
    }
  }

  /** `Trim` is the one middle part: whenever `s` is whitespace, then a part
      that neither starts nor ends with whitespace, then whitespace, that
      part is `Trim(s)`. */
  lemma TrimCharacterized(s: string, p: string, r: string, q: string)
    requires s == p + r + q && AllWhitespace(p) && AllWhitespace(q)
    requires |r| > 0 ==> !IsWhitespace(r[0]) && !IsWhitespace(r[|r| - 1])
    ensures Trim(s) == r
  {
    if |r| == 0 {
      WhitespaceConcat(p, q);
      assert s == p + q;
      LeadingOfPadded(s, s, "");
    } else {
      var rq := r + q;
      assert s == p + rq;
      LeadingOfPadded(s, p, rq);
      assert s[|p|..] == rq;
      TrailingOfPadded(rq, r, q);
      assert s[|p|..|s| - |q|] == r;
    }
  }

  /** A string that neither starts nor ends with whitespace is its own trim. */
  lemma TrimUnpadded(s: string)
    requires |s| > 0 ==> !IsWhitespace(s[0]) && !IsWhitespace(s[|s| - 1])
    ensures Trim(s) == s
  {
    TrimCharacterized(s, "", s, "");
  }

  /** Trimming is idempotent. */
  lemma TrimIdempotent(s: string)
    ensures Trim(Trim(s)) == Trim(s)
  {
    TrimUnpadded(Trim(s));
  }

  /** Only an all-whitespace string trims to the empty string. */
  lemma TrimEmpty(s: string)
    ensures Trim(s) == "" <==> AllWhitespace(s)
  {
    var p, q := TrimParts(s);
    if Trim(s) == "" {
      assert s == p + q;
      WhitespaceConcat(p, q);
    }
    if AllWhitespace(s) {
      TrimCharacterized(s, s, "", "");
    }
  }

  /** Whitespace added at the end, such as a carriage return before a line
      break, is trimmed away. */
  lemma TrimAppendWhitespace(s: string, w: char)
    requires IsWhitespace(w)
    ensures Trim(s + [w]) == Trim(s)
  {
    var r := Trim(s);
    var p, q := TrimParts(s);
    WhitespaceAppend(q, w);
    assert s + [w] == p + r + (q + [w]);
    TrimCharacterized(s + [w], p, r, q + [w]);
  }

  lemma WhitespaceConcat(p: string, q: string)
    requires AllWhitespace(p) && AllWhitespace(q)
    ensures AllWhitespace(p + q)
  {
    assert forall k :: 0 <= k < |p + q| ==> (p + q)[k] == if k < |p| then p[k] else q[k - |p|];
  }

  lemma WhitespaceAppend(q: string, w: char)
    requires AllWhitespace(q) && IsWhitespace(w)
    ensures AllWhitespace(q + [w])
  {
    assert forall k :: 0 <= k < |q| ==> (q + [w])[k] == q[k];
  }

  // ----------------------------------------------------------- split / join

  /** Position of the first `c` in `s`, if any (`s.indexOf(c)`). */
  function IndexOf(s: string, c: char): (r: Option<nat>)
    ensures r.None? <==> c !in s
    ensures r.Some? ==> r.value < |s| && s[r.value] == c && c !in s[..r.value]
  {
    if c !in s then None else Some(Seqs.FirstPos(s, c))
  }

  /** `s.split(c)` for a one-character separator: the maximal runs of `s`
      between occurrences of `c`; joining them back with `c` gives `s`. */
  function Split(s: string, c: char): (parts: seq<string>)
    ensures |parts| >= 1
    ensures forall i :: 0 <= i < |parts| ==> c !in parts[i]
    ensures Join(parts, [c]) == s
    ensures |parts| == Seqs.Occ(s, c) + 1
    decreases |s|
  {
    match IndexOf(s, c)
    case None =>
      OccAbsent(s, c);
      [s]
    case Some(i) =>
      var rest := Split(s[i + 1..], c);
      OccSplit(s, c, i);
      JoinCons(s, i, rest, c);
      AvoidCons(s[..i], rest, c);
      [s[..i]] + rest
  }

  lemma JoinCons(s: string, i: nat, rest: seq<string>, c: char)
    requires i < |s| && s[i] == c && |rest| >= 1 && Join(rest, [c]) == s[i + 1..]
    ensures Join([s[..i]] + rest, [c]) == s
  {
    var parts := [s[..i]] + rest;
    assert parts[0] == s[..i] && parts[1..] == rest;
    assert s == s[..i] + [c] + s[i + 1..];
  }

  lemma AvoidCons(head: string, rest: seq<string>, c: char)
    requires c !in head && forall i :: 0 <= i < |rest| ==> c !in rest[i]
    ensures forall i :: 0 <= i < |[head] + rest| ==> c !in ([head] + rest)[i]
  {
    assert forall i :: 0 < i < |[head] + rest| ==> ([head] + rest)[i] == rest[i - 1];
  }

  lemma OccAbsent(s: string, c: char)
    requires c !in s
    ensures Seqs.Occ(s, c) == 0
  {
    Seqs.OccPositive(s, c);
  }

  lemma {:induction false} OccSplit(s: string, c: char, i: nat)
    requires i < |s| && s[i] == c && c !in s[..i]
    ensures Seqs.Occ(s, c) == Seqs.Occ(s[i + 1..], c) + 1
  {
    Seqs.OccConcat(s[..i + 1], s[i + 1..], c);
    assert s == s[..i + 1] + s[i + 1..];
    OccAbsent(s[..i], c);
    Seqs.OccAppend(s[..i], c, c);
    assert s[..i + 1] == s[..i] + [c];
  }

  /** `parts.join(sep)`. */
  function Join(parts: seq<string>, sep: string): string
  {
    if |parts| == 0 then ""
    else if |parts| == 1 then parts[0]
    else parts[0] + sep + Join(parts[1..], sep)
  }

  /** A join starts with its first part, and is that part alone when there
      is no other. */
  lemma JoinHead(parts: seq<string>, sep: string)
    requires |parts| > 0
    ensures parts[0] <= Join(parts, sep)
    ensures |parts| == 1 ==> Join(parts, sep) == parts[0]
  {
    if |parts| > 1 {
      assert Join(parts, sep) == parts[0] + (sep + Join(parts[1..], sep));
    }
  }

  /** A character found in no part and not in the separator is not in the join. */
  lemma {:induction false} JoinAvoids(parts: seq<string>, sep: string, c: char)
    requires c !in sep && forall i :: 0 <= i < |parts| ==> c !in parts[i]
    ensures c !in Join(parts, sep)
  {
    if |parts| > 1 {
      JoinAvoids(parts[1..], sep, c);
      assert c !in parts[0];
    }
  }

  /** Splitting at the first separator peels off the leading part. */
  lemma SplitCons(a: string, c: char, b: string)
    requires c !in a
    ensures Split(a + [c] + b, c) == [a] + Split(b, c)
  {
    var s := a + [c] + b;
    assert s[|a|] == c;
    assert s[..|a|] == a;
    assert s[|a| + 1..] == b;
    assert forall j :: 0 <= j < |a| ==> s[j] == a[j];
  }

  /** Splitting a join of `c`-free parts gives the parts back. */
  lemma {:induction false} SplitOfJoin(parts: seq<string>, c: char)
    requires |parts| >= 1
    requires forall i :: 0 <= i < |parts| ==> c !in parts[i]
    ensures Split(Join(parts, [c]), c) == parts
  {
    if |parts| == 1 {
      OccAbsent(parts[0], c);
    } else {
      var rest := parts[1..];
      assert Join(parts, [c]) == parts[0] + [c] + Join(rest, [c]);
      SplitCons(parts[0], c, Join(rest, [c]));
      SplitOfJoin(rest, c);
      assert parts == [parts[0]] + rest;
    }
  }

  /** `SplitOfJoin` for a first part followed by the others. */
  lemma SplitOfJoinCons(head: string, rest: seq<string>, c: char)
    requires c !in head && forall i :: 0 <= i < |rest| ==> c !in rest[i]
    ensures Split(Join([head] + rest, [c]), c) == [head] + rest
  {
    var parts := [head] + rest;
    forall i | 0 <= i < |parts|
      ensures c !in parts[i]
    {
      if i > 0 {
        assert parts[i] == rest[i - 1];
      }
    }
    SplitOfJoin(parts, c);
  }

  // ---------------------------------------------------------- search, case

  /** `hay.startsWith(needle)`. */
  predicate StartsWith(hay: string, needle: string)
  {
    |needle| <= |hay| && hay[..|needle|] == needle
  }

  /** `needle` occurs in `hay` starting at position `i`. */
  predicate OccursAt(hay: string, needle: string, i: int)
  {
    0 <= i <= |hay| - |needle| && hay[i..i + |needle|] == needle
  }

  /** `hay.includes(needle)`: `needle` occurs at some position of `hay`. */
  function Includes(hay: string, needle: string): (r: bool)
    ensures r <==> exists i :: OccursAt(hay, needle, i)
    decreases |hay|
  {
    if |needle| > |hay| then false
    else if StartsWith(hay, needle) then
      assert OccursAt(hay, needle, 0);
      true
    else
      var r := Includes(hay[1..], needle);
      assert forall i :: OccursAt(hay, needle, i) && i >= 1 ==> OccursAt(hay[1..], needle, i - 1);
      assert forall i :: OccursAt(hay[1..], needle, i) ==> OccursAt(hay, needle, i + 1);
      r
  }

  /** Every string includes the empty string. */
  lemma IncludesEmpty(hay: string)
    ensures Includes(hay, "")
  {
    assert OccursAt(hay, "", 0);
  }

  /** ASCII case folding of one character. */
  function LowerChar(c: char): char
  {
    if 'A' <= c <= 'Z' then (c as int + 32) as char else c
  }

  /** `s.toLowerCase()` on ASCII letters; other characters are kept. */
  function ToLower(s: string): (r: string)
    ensures |r| == |s|
    ensures forall i :: 0 <= i < |s| ==> r[i] == LowerChar(s[i])
    ensures forall i :: 0 <= i < |r| ==> !('A' <= r[i] <= 'Z')
  {
    seq(|s|, i requires 0 <= i < |s| => LowerChar(s[i]))
  }
}
