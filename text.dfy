/**
 * The string matching the collectors rely on: Python's `in` on strings,
 * ASCII lower-casing, and the three regular expressions of the mail and
 * image extractors, each written out as the scan the regex engine performs
 * (leftmost start, greedy character runs, backtracking where it matters).
 */
module Text {
  import opened Packets

  /** The character classes the regular expressions use. */
  datatype CharClass =
    | Word    // [a-zA-Z0-9_.+-]
    | Host    // [a-zA-Z0-9-]
    | Domain  // [a-zA-Z0-9-.]

  predicate IsAlnum(c: char) {
    'a' <= c <= 'z' || 'A' <= c <= 'Z' || '0' <= c <= '9'
  }

  predicate InClass(c: char, k: CharClass) {
    match k
    case Word => IsAlnum(c) || c == '_' || c == '.' || c == '+' || c == '-'
    case Host => IsAlnum(c) || c == '-'
    case Domain => IsAlnum(c) || c == '-' || c == '.'
  }

  /** Every character of `s[i..j]` is in class `k`. */
  predicate AllIn(s: string, i: nat, j: nat, k: CharClass)
    requires i <= j <= |s|
  {
    forall t :: i <= t < j ==> InClass(s[t], k)
  }

  /** `t` occurs in `s` at index `i`. */
  predicate OccursAt(s: string, t: string, i: nat) {
    i + |t| <= |s| && s[i..i + |t|] == t
  }

  /** Python's `t in s` on strings, as the scan over start positions from `i` on. */
  predicate ContainsFrom(s: string, t: string, i: nat)
    decreases |s| - i
  {
    if i + |t| > |s| then false else OccursAt(s, t, i) || ContainsFrom(s, t, i + 1)
  }

  predicate Contains(s: string, t: string) {
    ContainsFrom(s, t, 0)
  }

  lemma {:induction false} ContainsFromIff(s: string, t: string, i: nat)
    ensures ContainsFrom(s, t, i) <==> exists j | i <= j <= |s| :: OccursAt(s, t, j)
    decreases |s| - i
  {
    if i + |t| <= |s| {
      ContainsFromIff(s, t, i + 1);
      if OccursAt(s, t, i) {
        assert i <= i <= |s|;
      } else if exists j | i <= j <= |s| :: OccursAt(s, t, j) {
        var j :| i <= j <= |s| && OccursAt(s, t, j);
        assert j != i && i + 1 <= j;
      }
    }
  }

  /** The scan agrees with the definition of `in`: `t` occurs somewhere in `s`. */
  lemma ContainsIff(s: string, t: string)
    ensures Contains(s, t) <==> exists j | 0 <= j <= |s| :: OccursAt(s, t, j)
  {
    ContainsFromIff(s, t, 0);
  }

  function LowerChar(c: char): char {
    if 'A' <= c <= 'Z' then (c as int + 32) as char else c
  }

  /** `str.lower()`, restricted to ASCII letters. */
  function Lower(s: string): string {
    seq(|s|, i requires 0 <= i < |s| => LowerChar(s[i]))
  }

  /** End of the longest run of class-`k` characters starting at `i`: what a greedy `[...]+` consumes. */
  function RunEnd(s: string, i: nat, k: CharClass): (j: nat)
    requires i <= |s|
    ensures i <= j <= |s|
    ensures AllIn(s, i, j, k)
    ensures j == |s| || !InClass(s[j], k)
    decreases |s| - i
  {
    if i == |s| || !InClass(s[i], k) then i else RunEnd(s, i + 1, k)
  }

  /** A run that is followed by a character outside the class is exactly what RunEnd finds. */
  lemma {:induction false} RunEndAt(s: string, i: nat, e: nat, k: CharClass)
    requires i <= e <= |s|
    requires AllIn(s, i, e, k)
    requires e == |s| || !InClass(s[e], k)
    ensures RunEnd(s, i, k) == e
    decreases e - i
  {
    if i < e {
      RunEndAt(s, i + 1, e, k);
    }
  }

  // ---------------------------------------------------------------------
  // File names: `re.findall('[a-zA-Z0-9_.+-]+.' + ext, uri)[0]`
  // ---------------------------------------------------------------------

  /**
   * What a file-name match looks like: at least one class character, one
   * arbitrary character other than a newline (the unescaped `.`), then `ext`.
   */
  predicate IsName(n: string, ext: string) {
    && |n| >= |ext| + 2
    && n[|n| - |ext|..] == ext
    && n[|n| - |ext| - 1] != '\n'
    && AllIn(n, 0, |n| - |ext| - 1, Word)
  }

  /**
   * The match attempt at `start` once the greedy run has reached `p`: the
   * character at `p` stands for the unescaped `.`, and on failure the run
   * gives back one character at a time.
   */
  function TryName(s: string, ext: string, start: nat, p: nat): (e: Option<nat>)
    requires start <= p <= |s|
    requires AllIn(s, start, p, Word)
    ensures e.Some? ==> start + |ext| + 2 <= e.value <= |s| && IsName(s[start..e.value], ext)
    decreases p
  {
    if p == start then None
    else if p < |s| && s[p] != '\n' && OccursAt(s, ext, p + 1) then
      var e := p + 1 + |ext|;
      assert s[start..e][e - start - |ext|..] == s[p + 1..e];
      Some(e)
    else TryName(s, ext, start, p - 1)
  }

  /** The first match at or after `i`, as `findall` lists it first. */
  function NameFrom(s: string, ext: string, i: nat): (r: Option<string>)
    requires i <= |s|
    ensures r.Some? ==> IsName(r.value, ext) && exists k :: OccursAt(s, r.value, k)
    decreases |s| - i
  {
    if i == |s| then None
    else
      match TryName(s, ext, i, RunEnd(s, i, Word))
      case Some(e) =>
        assert OccursAt(s, s[i..e], i);
        Some(s[i..e])
      case None => NameFrom(s, ext, i + 1)
  }

  /** `re.findall('[a-zA-Z0-9_.+-]+.' + ext, s)[0]`, None where indexing the empty list raises. */
  function FindName(s: string, ext: string): Option<string> {
    NameFrom(s, ext, 0)
  }

  lemma {:induction false} TryNameFinds(s: string, ext: string, start: nat, p: nat, q: nat)
    requires start <= p <= |s| && AllIn(s, start, p, Word)
    requires start < q <= p && q < |s| && s[q] != '\n' && OccursAt(s, ext, q + 1)
    ensures TryName(s, ext, start, p).Some?
    decreases p
  {
    if p > q && !(p < |s| && s[p] != '\n' && OccursAt(s, ext, p + 1)) {
      TryNameFinds(s, ext, start, p - 1, q);
    }
  }

  lemma NameFromFinds(s: string, ext: string, i: nat, q: nat)
    requires i < q < |s|
    requires OccursAt(s, "." + ext, q) && InClass(s[q - 1], Word)
    ensures NameFrom(s, ext, i).Some?
  {
    var e := q + 1 + |ext|;
    var n := s[q - 1..e];
    assert s[q] == ("." + ext)[0];
    assert n[|n| - |ext|..] == ext by {
      assert n[|n| - |ext|..] == s[q..e][1..];
    }
    assert n[0] == s[q - 1] && n[1] == s[q];
    NameFromComplete(s, ext, i, q - 1, e);
  }

  /** Every class character from `i` up to `q` is part of the greedy run. */
  lemma {:induction false} RunEndPast(s: string, i: nat, q: nat, k: CharClass)
    requires i <= q <= |s| && AllIn(s, i, q, k)
    ensures q <= RunEnd(s, i, k)
    decreases q - i
  {
    if i < q {
      RunEndPast(s, i + 1, q, k);
    }
  }

  lemma {:induction false} NameFromComplete(s: string, ext: string, i: nat, k: nat, e: nat)
    requires i <= k <= e <= |s| && IsName(s[k..e], ext)
    ensures NameFrom(s, ext, i).Some?
    decreases k - i
  {
    var q := e - |ext| - 1;
    if i == k {
      assert s[q] == s[k..e][q - k];
      assert AllIn(s, k, q, Word) by {
        forall t | k <= t < q ensures InClass(s[t], Word) {
          assert s[t] == s[k..e][t - k];
        }
      }
      assert OccursAt(s, ext, q + 1) by {
        assert s[q + 1..e] == s[k..e][|s[k..e]| - |ext|..];
      }
      var p := RunEnd(s, k, Word);
      RunEndPast(s, k, q, Word);
      TryNameFinds(s, ext, k, p, q);
    } else if TryName(s, ext, i, RunEnd(s, i, Word)).None? {
      NameFromComplete(s, ext, i + 1, k, e);
    }
  }

  /** No file name is missed: when the scan from `i` finds none, no substring from `i` on is one. */
  lemma NameFromNone(s: string, ext: string, i: nat)
    requires i <= |s|
    ensures NameFrom(s, ext, i).None? ==> forall k, e :: i <= k <= e <= |s| ==> !IsName(s[k..e], ext)
  {
    forall k, e | i <= k <= e <= |s| && IsName(s[k..e], ext)
      ensures NameFrom(s, ext, i).Some?
    {
      NameFromComplete(s, ext, i, k, e);
    }
  }

  /**
   * The file-name lookup cannot fail when the extension is preceded by a
   * class character: the `[0]` of the image extractor only raises on URIs
   * such as `host/.gif`.
   */
  lemma NameFoundAfterWordChar(s: string, ext: string, q: nat)
    requires 0 < q < |s|
    requires OccursAt(s, "." + ext, q) && InClass(s[q - 1], Word)
    ensures FindName(s, ext).Some?
  {
    NameFromFinds(s, ext, 0, q);
  }

  // ---------------------------------------------------------------------
  // Mail addresses: `local@host.domain` after a `TO: <` or `FROM: <` command
  // ---------------------------------------------------------------------

  /** `[a-zA-Z0-9_.+-]+@[a-zA-Z0-9-]+\.[a-zA-Z0-9-.]+` matching the whole of `a`. */
  predicate IsAddress(a: string) {
    exists k, h | 0 < k && k + 1 < h && h + 1 < |a| ::
      && a[k] == '@' && a[h] == '.'
      && AllIn(a, 0, k, Word) && AllIn(a, k + 1, h, Host) && AllIn(a, h + 1, |a|, Domain)
  }

  /**
   * Index of the closing `>` when `s[j..]` starts with `local@host.domain>`.
   * None of the three classes contains the character that ends its run (`@`,
   * `.` after the host, `>`), so backtracking cannot help and each run is the
   * greedy one.
   */
  function AddressEnd(s: string, j: nat): (m: Option<nat>)
    requires j <= |s|
    ensures m.Some? ==> j < m.value < |s| && s[m.value] == '>' && IsAddress(s[j..m.value])
  {
    var k := RunEnd(s, j, Word);
    if k == j || k == |s| || s[k] != '@' then None
    else
      var h := RunEnd(s, k + 1, Host);
      if h == k + 1 || h == |s| || s[h] != '.' then None
      else
        var m := RunEnd(s, h + 1, Domain);
        if m == h + 1 || m == |s| || s[m] != '>' then None
        else
          var a := s[j..m];
          assert forall t :: 0 <= t < m - j ==> a[t] == s[j + t];
          assert a[k - j] == '@' && a[h - j] == '.';
          Some(m)
  }

  /**
   * The addresses `re.findall` extracts for `prefix + address + '>'`, scanning
   * from `i`: after a match the scan resumes behind its `>`, otherwise one
   * character further on.
   */
  function Findall(s: string, prefix: string, i: nat): (r: seq<string>)
    requires i <= |s|
    ensures forall a | a in r :: IsAddress(a)
    decreases |s| - i
  {
    if i == |s| then []
    else if OccursAt(s, prefix, i) && AddressEnd(s, i + |prefix|).Some? then
      var m := AddressEnd(s, i + |prefix|).value;
      [s[i + |prefix|..m]] + Findall(s, prefix, m + 1)
    else Findall(s, prefix, i + 1)
  }

  lemma CopiedRun(s: string, j: nat, a: string, lo: nat, hi: nat, k: CharClass)
    requires lo <= hi <= |a| && j + |a| <= |s|
    requires forall t :: 0 <= t < |a| ==> s[j + t] == a[t]
    requires AllIn(a, lo, hi, k)
    ensures AllIn(s, j + lo, j + hi, k)
  {
    forall t | j + lo <= t < j + hi ensures InClass(s[t], k) {
      assert s[j + (t - j)] == a[t - j];
    }
  }

  lemma AddressEndFromRuns(s: string, j: nat, k: nat, h: nat, m: nat)
    requires j < k < |s| && RunEnd(s, j, Word) == k && s[k] == '@'
    requires k + 1 < h < |s| && RunEnd(s, k + 1, Host) == h && s[h] == '.'
    requires h + 1 < m < |s| && RunEnd(s, h + 1, Domain) == m && s[m] == '>'
    ensures AddressEnd(s, j) == Some(m)
  {
  }

  /** An address followed by `>` is matched up to exactly that `>`. */
  lemma AddressEndAt(s: string, j: nat, a: string)
    requires IsAddress(a)
    requires j + |a| < |s| && s[j + |a|] == '>'
    requires forall t :: 0 <= t < |a| ==> s[j + t] == a[t]
    ensures AddressEnd(s, j) == Some(j + |a|)
  {
    var k, h :| 0 < k && k + 1 < h && h + 1 < |a|
      && a[k] == '@' && a[h] == '.'
      && AllIn(a, 0, k, Word) && AllIn(a, k + 1, h, Host) && AllIn(a, h + 1, |a|, Domain);
    var at, dot, end := j + k, j + h, j + |a|;
    CopiedRun(s, j, a, 0, k, Word);
    assert AllIn(s, j, at, Word);
    CopiedRun(s, j, a, k + 1, h, Host);
    assert AllIn(s, at + 1, dot, Host);
    CopiedRun(s, j, a, h + 1, |a|, Domain);
    assert AllIn(s, dot + 1, end, Domain);
    assert s[at] == '@' && s[dot] == '.';
    RunEndAt(s, j, at, Word);
    RunEndAt(s, at + 1, dot, Host);
    RunEndAt(s, dot + 1, end, Domain);
    AddressEndFromRuns(s, j, at, dot, end);
  }

  /** A mail command written out with a well-formed address yields exactly that address. */
  lemma CommandRoundTrip(prefix: string, a: string)
    requires IsAddress(a)
    ensures Findall(prefix + a + ">", prefix, 0) == [a]
  {
    var s := prefix + a + ">";
    var j := |prefix|;
    assert s == prefix + (a + ">");
    assert OccursAt(s, prefix, 0);
    AddressEndAt(s, j, a);
    assert s[j..j + |a|] == a;
    assert Findall(s, prefix, j + |a| + 1) == [];
  }
}
