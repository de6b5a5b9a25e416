/**
 The string trimming the to-do list applies to every text a user types:
 JavaScript's `String.prototype.trim`, which removes leading and trailing
 white space and line terminators.
 */
module Text {

  /** The characters `trim` strips: ECMAScript's WhiteSpace production
      (TAB, VT, FF, ZWNBSP and every Unicode "Zs" space separator) and its
      LineTerminator production (LF, CR, LINE SEPARATOR, PARAGRAPH SEPARATOR),
      sections 12.2 and 12.3 of ECMA-262. */
  predicate IsWhitespace(c: char) {
    || c == '\t' || c == '\n' || c == '\U{000B}' || c == '\U{000C}' || c == '\r'
    || c == ' ' || c == '\U{00A0}' || c == '\U{1680}'
    || ('\U{2000}' <= c <= '\U{200A}')
    || c == '\U{2028}' || c == '\U{2029}' || c == '\U{202F}' || c == '\U{205F}'
    || c == '\U{3000}' || c == '\U{FEFF}'
  }

  /** Every character of `s` is white space (vacuously so for ""). */
  predicate AllWhitespace(s: string) {
    forall k :: 0 <= k < |s| ==> IsWhitespace(s[k])
  }

  /** `s` neither starts nor ends with white space: what `trim` leaves. */
  predicate Trimmed(s: string) {
    s == [] || (!IsWhitespace(s[0]) && !IsWhitespace(s[|s| - 1]))
  }

  /** The end of the white-space run that starts at position `i`: the
      first position from `i` on holding a non-white-space character, or
      `|s|` when there is none. */
  function LeadingEnd(s: string, i: nat): (j: nat)
    requires i <= |s|
    ensures i <= j <= |s|
    ensures forall k :: i <= k < j ==> IsWhitespace(s[k])
    ensures j < |s| ==> !IsWhitespace(s[j])
    decreases |s| - i
  {
    if i < |s| && IsWhitespace(s[i]) then LeadingEnd(s, i + 1) else i
  }

  /** The start of the white-space run that ends at position `j`, looking
      no further back than `lo`. */
  function TrailingStart(s: string, lo: nat, j: nat): (e: nat)
    requires lo <= j <= |s|
    ensures lo <= e <= j
    ensures forall k :: e <= k < j ==> IsWhitespace(s[k])
    ensures lo < e ==> !IsWhitespace(s[e - 1])
    decreases j - lo
  {
    if lo < j && IsWhitespace(s[j - 1]) then TrailingStart(s, lo, j - 1) else j
  }

  /** `LeadingEnd` is the only position with white space from `i` up to it
      and a non-white-space character (or the end) right at it. */
  lemma {:induction false} LeadingEndUnique(s: string, i: nat, n: nat)
    requires i <= n <= |s|
    requires forall k :: i <= k < n ==> IsWhitespace(s[k])
    requires n < |s| ==> !IsWhitespace(s[n])
    ensures LeadingEnd(s, i) == n
    decreases n - i
  {
    if i < n {
      LeadingEndUnique(s, i + 1, n);
    }
  }

  /** Mirror image of LeadingEndUnique for the end of the string. */
  lemma {:induction false} TrailingStartUnique(s: string, lo: nat, j: nat, e: nat)
    requires lo <= e <= j <= |s|
    requires forall k :: e <= k < j ==> IsWhitespace(s[k])
    requires lo < e ==> !IsWhitespace(s[e - 1])
    ensures TrailingStart(s, lo, j) == e
    decreases j - e
  {
    if e < j {
      TrailingStartUnique(s, lo, j - 1, e);
    }
  }

  /** Gluing two blank strings gives a blank string. */
  lemma AllWhitespaceConcat(x: string, y: string)
    requires AllWhitespace(x) && AllWhitespace(y)
    ensures AllWhitespace(x + y)
  {
  }

  /** `s.trim()`: `s` with its leading and trailing white space removed.
      The result is a contiguous piece of `s` cut out between two runs of
      white space, it is empty exactly when `s` is blank, and it starts and
      ends with a non-white-space character otherwise. */
  function Trim(s: string): (r: string)
    ensures |r| <= |s|
    ensures Trimmed(r)
    ensures r == [] <==> AllWhitespace(s)
    ensures exists i :: 0 <= i <= |s| - |r| && s[i..i + |r|] == r
                        && AllWhitespace(s[..i]) && AllWhitespace(s[i + |r|..])
  {
    var a := LeadingEnd(s, 0);
    var e := TrailingStart(s, a, |s|);
    assert s[a..a + (e - a)] == s[a..e];
    assert AllWhitespace(s[..a]) && AllWhitespace(s[e..]);
    s[a..e]
  }

  /** `trim` is characterised by its result: whatever white space `p` and
      `q` surround an already-trimmed `r` with, trimming gives back `r`. */
  lemma TrimOfPadded(p: string, r: string, q: string)
    requires AllWhitespace(p) && AllWhitespace(q) && Trimmed(r)
    ensures Trim(p + r + q) == r
  {
    var s := p + r + q;
    if r == [] {
      AllWhitespaceConcat(p, q);
      assert s == p + q;
    } else {
      var a, e := |p|, |p| + |r|;
      forall k | 0 <= k < a ensures IsWhitespace(s[k]) {
        assert s[k] == p[k];
      }
      assert s[a] == r[0];
      LeadingEndUnique(s, 0, a);
      forall k | e <= k < |s| ensures IsWhitespace(s[k]) {
        assert s[k] == q[k - e];
      }
      assert s[e - 1] == r[|r| - 1];
      TrailingStartUnique(s, a, |s|, e);
      assert s[a..e] == r;
    }
  }

  /** A string without white space at either end is its own trim. */
  lemma TrimOfTrimmed(s: string)
    requires Trimmed(s)
    ensures Trim(s) == s
  {
    assert [] + s + [] == s;
    TrimOfPadded([], s, []);
  }

  /** Trimming twice is trimming once. */
  lemma TrimIdempotent(s: string)
    ensures Trim(Trim(s)) == Trim(s)
  {
  }

  /** "  new  ".trim() is "new". */
  lemma TrimPaddedNew()
    ensures Trim("  new  ") == "new"
  {
    var pad, text := "  ", "new";
    assert AllWhitespace(pad) by {
      assert pad[0] == ' ' && pad[1] == ' ';
    }
    assert !IsWhitespace(text[0]) && !IsWhitespace(text[|text| - 1]);
    assert "  new  " == pad + text + pad;
    TrimOfPadded(pad, text, pad);
  }
}
