/**
 * The string work behind `toggleClass` in src/layout/hooks/useDataThemeChange.ts:
 * a class-list string loses the FIRST substring occurrence of a class name
 * (`String.prototype.replace` with a string pattern), is trimmed
 * (`String.prototype.trim`), and optionally gets the name appended after one space.
 * Occurrences are substrings, not whitespace-separated tokens.
 */
module ClassList {
  import opened Wrappers

  /** The characters `trim` removes: ECMAScript's WhiteSpace and LineTerminator code points. */
  const Whitespace: set<char> :=
    { '\t', '\n', '\U{000B}', '\U{000C}', '\r', ' ', '\U{00A0}', '\U{1680}',
      '\U{2000}', '\U{2001}', '\U{2002}', '\U{2003}', '\U{2004}', '\U{2005}',
      '\U{2006}', '\U{2007}', '\U{2008}', '\U{2009}', '\U{200A}', '\U{2028}',
      '\U{2029}', '\U{202F}', '\U{205F}', '\U{3000}', '\U{FEFF}' }

  predicate IsWhitespace(c: char)
  {
    c in Whitespace
  }

  predicate NoWhitespace(s: string)
  {
    forall i :: 0 <= i < |s| ==> !IsWhitespace(s[i])
  }

  predicate AllWhitespace(s: string)
  {
    forall i :: 0 <= i < |s| ==> IsWhitespace(s[i])
  }

  /** Every character of `s[lo..hi]` is whitespace. */
  predicate WhitespaceIn(s: string, lo: int, hi: int)
    requires 0 <= lo && hi <= |s|
  {
    forall i :: lo <= i < hi ==> IsWhitespace(s[i])
  }

  /** Neither end of `s` is whitespace: the shape `trim` produces. */
  predicate Trimmed(s: string)
  {
    |s| == 0 || (!IsWhitespace(s[0]) && !IsWhitespace(s[|s| - 1]))
  }

  /** The index of the first non-whitespace character at or after `i`, or `|s|` if there is none. */
  function SkipLeading(s: string, i: nat): (r: nat)
    requires i <= |s|
    ensures i <= r <= |s|
    ensures WhitespaceIn(s, i, r)
    ensures r < |s| ==> !IsWhitespace(s[r])
    decreases |s| - i
  {
    if i < |s| && IsWhitespace(s[i]) then SkipLeading(s, i + 1) else i
  }

  /** The index just past the last non-whitespace character before `j`, or `lo` if there is none. */
  function SkipTrailing(s: string, lo: nat, j: nat): (r: nat)
    requires lo <= j <= |s|
    ensures lo <= r <= j
    ensures WhitespaceIn(s, r, j)
    ensures r > lo ==> !IsWhitespace(s[r - 1])
  {
    if j > lo && IsWhitespace(s[j - 1]) then SkipTrailing(s, lo, j - 1) else j
  }

  /** How much leading whitespace `trim` drops from `s`. */
  function TrimOffset(s: string): (n: nat)
    ensures n <= |s|
  {
    SkipLeading(s, 0)
  }

  /** `String.prototype.trim`: the middle of `s` between whitespace runs at both ends. */
  function Trim(s: string): (r: string)
    ensures Trimmed(r)
    ensures TrimOffset(s) + |r| <= |s| && r == s[TrimOffset(s)..TrimOffset(s) + |r|]
    ensures WhitespaceIn(s, 0, TrimOffset(s)) && WhitespaceIn(s, TrimOffset(s) + |r|, |s|)
  {
    var a := SkipLeading(s, 0);
    var b := SkipTrailing(s, a, |s|);
    s[a..b]
  }

  /** `SkipLeading` stops at the first non-whitespace character and nowhere else. */
  lemma {:induction false} SkipLeadingStops(s: string, i: nat, k: nat)
    requires i <= k <= |s| && WhitespaceIn(s, i, k)
    requires k < |s| ==> !IsWhitespace(s[k])
    ensures SkipLeading(s, i) == k
    decreases k - i
  {
    if i < k {
      SkipLeadingStops(s, i + 1, k);
    }
  }

  /** `SkipTrailing` stops just past the last non-whitespace character and nowhere else. */
  lemma {:induction false} SkipTrailingStops(s: string, lo: nat, j: nat, k: nat)
    requires lo <= k <= j <= |s| && WhitespaceIn(s, k, j)
    requires k > lo ==> !IsWhitespace(s[k - 1])
    ensures SkipTrailing(s, lo, j) == k
    decreases j - k
  {
    if k < j {
      SkipTrailingStops(s, lo, j - 1, k);
    }
  }

  /** The independent characterisation of `trim`: whatever whitespace surrounds a trimmed string, `Trim` gives that string back. */
  lemma {:induction false} TrimOfPadded(a: string, t: string, b: string)
    requires AllWhitespace(a) && AllWhitespace(b) && Trimmed(t)
    ensures Trim(a + t + b) == t
  {
    var s := a + t + b;
    assert forall i :: 0 <= i < |a| ==> s[i] == a[i];
    assert forall i :: 0 <= i < |t| ==> s[|a| + i] == t[i];
    assert forall i :: 0 <= i < |b| ==> s[|a| + |t| + i] == b[i];
    if |t| == 0 {
      SkipLeadingStops(s, 0, |s|);
      SkipTrailingStops(s, |s|, |s|, |s|);
    } else {
      SkipLeadingStops(s, 0, |a|);
      SkipTrailingStops(s, |a|, |s|, |a| + |t|);
      assert s[|a|..|a| + |t|] == t;
    }
  }

  /** `trim` is idempotent. */
  lemma TrimIdempotent(s: string)
    ensures Trim(Trim(s)) == Trim(s)
  {
    var t := Trim(s);
    TrimOfPadded("", t, "");
    assert "" + t + "" == t;
  }

  /** `p` occurs in `s` starting at index `i`. */
  predicate OccursAt(s: string, p: string, i: int)
  {
    0 <= i && i + |p| <= |s| && s[i..i + |p|] == p
  }

  predicate Occurs(s: string, p: string)
  {
    exists i :: 0 <= i <= |s| && OccursAt(s, p, i)
  }

  /** `i` is the leftmost occurrence of `p` in `s`. */
  predicate FirstOccurrenceAt(s: string, p: string, i: int)
  {
    OccursAt(s, p, i) && forall j :: 0 <= j < i ==> !OccursAt(s, p, j)
  }

  /** `String.prototype.indexOf(p, from)`: the leftmost occurrence of `p` at or after `from`. */
  function IndexOfFrom(s: string, p: string, from: nat): (r: Option<nat>)
    ensures r.Some? ==> from <= r.value && OccursAt(s, p, r.value)
    ensures r.Some? ==> forall j :: from <= j < r.value ==> !OccursAt(s, p, j)
    ensures r.None? ==> forall j :: from <= j ==> !OccursAt(s, p, j)
    decreases |s| - from
  {
    if from + |p| > |s| then None
    else if s[from..from + |p|] == p then Some(from)
    else IndexOfFrom(s, p, from + 1)
  }

  function IndexOf(s: string, p: string): (r: Option<nat>)
    ensures r.Some? <==> Occurs(s, p)
    ensures r.Some? ==> FirstOccurrenceAt(s, p, r.value)
  {
    IndexOfFrom(s, p, 0)
  }

  /** `s.replace(p, "")`: the first occurrence of `p` is cut out; nothing happens when there is none. */
  function RemoveFirst(s: string, p: string): (r: string)
    ensures !Occurs(s, p) ==> r == s
    ensures forall i :: FirstOccurrenceAt(s, p, i) ==> r == s[..i] + s[i + |p|..]
    ensures Occurs(s, p) ==> |r| == |s| - |p|
  {
    match IndexOf(s, p)
    case None => s
    case Some(i) =>
      assert forall k :: FirstOccurrenceAt(s, p, k) ==> k == i;
      s[..i] + s[i + |p|..]
  }

  /**
   * `toggleClass(flag, clsName)` on the element's `className`: drop the first
   * occurrence of `clsName`, trim, and with `flag` append `" " + clsName`.
   */
  function ToggleClass(flag: bool, clsName: string, className: string): (r: string)
    ensures flag ==> |r| > |clsName| && r[|r| - |clsName| - 1..] == " " + clsName
    ensures Trimmed(if flag then r[..|r| - |clsName| - 1] else r)
  {
    var rest := Trim(RemoveFirst(className, clsName));
    if flag then
      var r := rest + (" " + clsName);
      assert r[..|rest|] == rest && r[|rest|..] == " " + clsName;
      r
    else rest
  }

  /** What `toggleClass` keeps of the old class list: the string with its first occurrence of `clsName` cut out, trimmed. */
  lemma ToggleClassRemainder(flag: bool, clsName: string, className: string)
    ensures var r := ToggleClass(flag, clsName, className);
            var rest := if flag then r[..|r| - |clsName| - 1] else r;
            && (!Occurs(className, clsName) ==> rest == Trim(className))
            && (forall i :: FirstOccurrenceAt(className, clsName, i) ==>
                  rest == Trim(className[..i] + className[i + |clsName|..]))
  {
    var rest := Trim(RemoveFirst(className, clsName));
    var r := ToggleClass(flag, clsName, className);
    assert flag ==> r == rest + (" " + clsName) && r[..|rest|] == rest;
  }

  /** A substring of a string that does not contain `p` does not contain `p`. */
  lemma {:induction false} NotInSlice(s: string, lo: int, hi: int, p: string)
    requires 0 <= lo <= hi <= |s|
    requires !Occurs(s, p)
    ensures !Occurs(s[lo..hi], p)
  {
    forall j | 0 <= j && j + |p| <= hi - lo
      ensures !OccursAt(s[lo..hi], p, j)
    {
      var w := s[lo..hi][j..j + |p|];
      assert forall k :: 0 <= k < |p| ==> w[k] == s[lo + j + k];
      assert w == s[lo + j..lo + j + |p|];
      assert !OccursAt(s, p, lo + j);
    }
  }

  /**
   * When `c` is a single token absent from `t`, cutting the first occurrence
   * of `c` out of `t + " " + c` removes the appended copy.
   */
  lemma {:induction false} RemoveAppended(t: string, c: string)
    requires NoWhitespace(c) && |c| > 0
    requires !Occurs(t, c)
    ensures RemoveFirst(t + " " + c, c) == t + " "
  {
    var u := t + " " + c;
    assert u[|t| + 1..] == c;
    forall j | 0 <= j < |t| + 1
      ensures !OccursAt(u, c, j)
    {
      if j + |c| <= |t| {
        assert u[j..j + |c|] == t[j..j + |c|];
        assert !OccursAt(t, c, j);
      } else {
        assert u[j..j + |c|][|t| - j] == u[|t|] == ' ';
        assert !IsWhitespace(c[|t| - j]);
      }
    }
    assert FirstOccurrenceAt(u, c, |t| + 1);
    assert u[..|t| + 1] == t + " ";
    assert u[|t| + 1 + |c|..] == [];
  }

  /** `Trim(s)` contains `c` only if `s` does; an absent `c` cannot be the empty string. */
  lemma TrimKeepsAbsent(s: string, c: string)
    requires !Occurs(s, c)
    ensures |c| > 0 && !Occurs(Trim(s), c)
  {
    assert OccursAt(s, "", 0);
    NotInSlice(s, TrimOffset(s), TrimOffset(s) + |Trim(s)|, c);
  }

  /** A trimmed string followed by one space trims back to itself. */
  lemma TrimDropsSpace(t: string)
    requires Trimmed(t)
    ensures Trim(t + " ") == t
  {
    TrimOfPadded("", t, " ");
    assert "" + t + " " == t + " ";
  }

  /**
   * Adding a class twice leaves the same class list as adding it once, provided
   * the name is one whitespace-free token that was not already in the list.
   */
  lemma {:induction false} ToggleOnIdempotent(c: string, s: string)
    requires NoWhitespace(c)
    requires !Occurs(s, c)
    ensures ToggleClass(true, c, ToggleClass(true, c, s)) == ToggleClass(true, c, s)
  {
    var t := Trim(s);
    TrimKeepsAbsent(s, c);
    var once := ToggleClass(true, c, s);
    assert once == t + " " + c by {
      assert RemoveFirst(s, c) == s;
    }
    RemoveAppended(t, c);
    TrimDropsSpace(t);
    assert ToggleClass(true, c, once) == Trim(RemoveFirst(once, c)) + " " + c;
  }

  /** Removing a class right after adding it takes the name out again and leaves the trimmed original. */
  lemma {:induction false} ToggleOffAfterOn(c: string, s: string)
    requires NoWhitespace(c)
    requires !Occurs(s, c)
    ensures ToggleClass(false, c, ToggleClass(true, c, s)) == Trim(s)
    ensures !Occurs(ToggleClass(false, c, ToggleClass(true, c, s)), c)
  {
    var t := Trim(s);
    TrimKeepsAbsent(s, c);
    var once := ToggleClass(true, c, s);
    assert once == t + " " + c by {
      assert RemoveFirst(s, c) == s;
    }
    RemoveAppended(t, c);
    TrimDropsSpace(t);
    assert ToggleClass(false, c, once) == Trim(RemoveFirst(once, c));
  }

  /**
   * Occurrences are substrings, not tokens: when the list starts with the name
   * followed directly by more characters (so the name was only the start of a
   * longer class), removal still cuts the name out and keeps the rest of that class.
   */
  lemma {:induction false} SubstringNotToken(p: string, a: string)
    ensures ToggleClass(false, p, p + a) == Trim(a)
  {
    var s := p + a;
    assert s[..|p|] == p;
    assert FirstOccurrenceAt(s, p, 0);
    assert s[..0] + s[|p|..] == a;
  }

  /** Cutting `s[i..i + |p|]` out of `s` moves an occurrence past the cut `|p|` places to the left. */
  lemma CutShiftsLater(s: string, p: string, i: int, j: int)
    requires 0 <= i && i + |p| <= j && OccursAt(s, p, j)
    ensures OccursAt(s[..i] + s[i + |p|..], p, j - |p|)
  {
    var r := s[..i] + s[i + |p|..];
    forall k | j - |p| <= k < j
      ensures r[k] == s[k + |p|]
    {
    }
    assert r[j - |p|..j] == s[j..j + |p|];
  }

  /** Cutting out the first occurrence of `p` keeps every later, non-overlapping occurrence, shifted left by `|p|`. */
  lemma {:induction false} RemoveFirstKeepsLater(s: string, p: string, i: int, j: int)
    requires FirstOccurrenceAt(s, p, i) && OccursAt(s, p, j) && j >= i + |p|
    ensures OccursAt(RemoveFirst(s, p), p, j - |p|)
  {
    assert RemoveFirst(s, p) == s[..i] + s[i + |p|..];
    CutShiftsLater(s, p, i, j);
  }

  /** An occurrence of a non-empty name with no whitespace at its ends survives `trim`, shifted by the dropped prefix. */
  lemma {:induction false} TrimKeepsOccurrence(s: string, p: string, m: int)
    requires |p| > 0 && Trimmed(p)
    requires OccursAt(s, p, m)
    ensures TrimOffset(s) <= m && OccursAt(Trim(s), p, m - TrimOffset(s))
  {
    var a := TrimOffset(s);
    var t := Trim(s);
    assert s[m..m + |p|] == p;
    assert !IsWhitespace(s[m]) && !IsWhitespace(s[m + |p| - 1]);
    assert a <= m && m + |p| <= a + |t|;
    forall k | m - a <= k < m - a + |p|
      ensures t[k] == s[a + k]
    {
    }
    assert t[m - a..m - a + |p|] == s[m..m + |p|];
  }

  /**
   * `toggleClass(false, …)` removes only the first occurrence: a list holding
   * the name twice still holds it afterwards.
   */
  lemma {:induction false} OnlyFirstOccurrence(p: string, s: string, i: int, j: int)
    requires |p| > 0 && Trimmed(p)
    requires FirstOccurrenceAt(s, p, i) && OccursAt(s, p, j) && j >= i + |p|
    ensures Occurs(ToggleClass(false, p, s), p)
  {
    RemoveFirstKeepsLater(s, p, i, j);
    var r := RemoveFirst(s, p);
    TrimKeepsOccurrence(r, p, j - |p|);
    assert OccursAt(Trim(r), p, j - |p| - TrimOffset(r));
  }
}
