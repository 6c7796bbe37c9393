/** The file-name sanitiser of the search engine (`_sanitize_filename`):
    delete every character of the class `[\\/:*?"<>|]`, then strip the
    surrounding whitespace the way Python's `str.strip()` does. */
module Filenames {

  /** The nine characters of the sanitiser's regular-expression class. */
  const IllegalChars: string := "\\/:*?\"<>|"

  predicate IsIllegal(c: char)
  {
    c == '\\' || c == '/' || c == ':' || c == '*' || c == '?' || c == '"' || c == '<' || c == '>' || c == '|'
  }

  /** The predicate names exactly the nine characters of the class. */
  lemma IllegalCharsExact(c: char)
    ensures IsIllegal(c) <==> c in IllegalChars
    ensures |IllegalChars| == 9
  {
  }

  /** Python's `str.isspace()`, the test `str.strip()` applies when called
      without arguments. */
  predicate IsSpace(c: char)
  {
    || '\t' <= c <= '\r'
    || '\U{1C}' <= c <= '\U{1F}'
    || c == ' '
    || c == '\U{85}'
    || c == '\U{A0}'
    || c == '\U{1680}'
    || '\U{2000}' <= c <= '\U{200A}'
    || c == '\U{2028}'
    || c == '\U{2029}'
    || c == '\U{202F}'
    || c == '\U{205F}'
    || c == '\U{3000}'
  }

  predicate NoIllegal(s: string)
  {
    forall i :: 0 <= i < |s| ==> !IsIllegal(s[i])
  }

  predicate AllSpace(s: string)
  {
    forall i :: 0 <= i < |s| ==> IsSpace(s[i])
  }

  /** Neither end of `s` is whitespace. */
  predicate Trimmed(s: string)
  {
    |s| == 0 || (!IsSpace(s[0]) && !IsSpace(s[|s| - 1]))
  }

  /** `a` is obtained from `b` by deleting characters: the characters of `a`
      occur in `b` in the same order. */
  ghost predicate Subseq(a: string, b: string)
    decreases |b|
  {
    || |a| == 0
    || (|b| > 0 && ((a[0] == b[0] && Subseq(a[1..], b[1..])) || Subseq(a, b[1..])))
  }

  /** `re.sub(r'[\\/:*?"<>|]', '', s)`: no illegal character is left and
      nothing is added. */
  function RemoveIllegal(s: string): (r: string)
    ensures NoIllegal(r)
    ensures |r| <= |s|
  {
    if |s| == 0 then ""
    else if IsIllegal(s[0]) then RemoveIllegal(s[1..])
    else [s[0]] + RemoveIllegal(s[1..])
  }

  /** The first index at or after `i` that does not hold whitespace, or
      `|s|`: the left scan of `str.strip()`. */
  function LeadingEnd(s: string, i: nat): (a: nat)
    requires i <= |s|
    ensures i <= a <= |s|
    ensures forall j :: i <= j < a ==> IsSpace(s[j])
    ensures a == |s| || !IsSpace(s[a])
    decreases |s| - i
  {
    if i < |s| && IsSpace(s[i]) then LeadingEnd(s, i + 1) else i
  }

  /** The right scan of `str.strip()`: moving left from `j` but never past
      `a`, the end of the last character that is not whitespace. */
  function TrailingStart(s: string, a: nat, j: nat): (b: nat)
    requires a <= j <= |s|
    ensures a <= b <= j
    ensures forall k :: b <= k < j ==> IsSpace(s[k])
    ensures b == a || !IsSpace(s[b - 1])
    decreases j
  {
    if j > a && IsSpace(s[j - 1]) then TrailingStart(s, a, j - 1) else j
  }

  /** Python's `str.strip()` without arguments. */
  function Strip(s: string): (r: string)
    ensures Trimmed(r)
    ensures |r| <= |s|
  {
    var a := LeadingEnd(s, 0);
    s[a..TrailingStart(s, a, |s|)]
  }

  /** `SearchEngine._sanitize_filename`. */
  function Sanitize(s: string): (r: string)
    ensures NoIllegal(r)
    ensures Trimmed(r)
    ensures |r| <= |s|
  {
    StripKeepsLegal(RemoveIllegal(s));
    Strip(RemoveIllegal(s))
  }

  lemma NoIllegalConcat(a: string, b: string)
    requires NoIllegal(a) && NoIllegal(b)
    ensures NoIllegal(a + b)
  {
  }

  /** Stripping cuts only whitespace: `s` is the stripped text with
      whitespace on both sides. */
  lemma StripIsInfix(s: string) returns (pre: string, post: string)
    ensures s == pre + Strip(s) + post
    ensures AllSpace(pre) && AllSpace(post)
  {
    var a := LeadingEnd(s, 0);
    var b := TrailingStart(s, a, |s|);
    pre, post := s[0..a], s[b..|s|];
    AllSpaceSlice(s, 0, a);
    AllSpaceSlice(s, b, |s|);
    StripSlice(s);
    assert s == pre + s[a..b] + post;
  }

  /** Stripping only cuts, so it adds no illegal character. */
  lemma StripKeepsLegal(s: string)
    requires NoIllegal(s)
    ensures NoIllegal(Strip(s))
  {
    StripSlice(s);
  }

  lemma StripSlice(s: string)
    ensures Strip(s) == s[LeadingEnd(s, 0)..TrailingStart(s, LeadingEnd(s, 0), |s|)]
  {
  }

  lemma AllSpaceSlice(s: string, i: nat, j: nat)
    requires i <= j <= |s|
    requires forall k :: i <= k < j ==> IsSpace(s[k])
    ensures AllSpace(s[i..j])
  {
  }

  /** A trimmed text surrounded by whitespace strips back to itself. */
  lemma StripPadded(pre: string, t: string, post: string)
    requires AllSpace(pre) && AllSpace(post) && Trimmed(t)
    ensures Strip(pre + t + post) == t
  {
    var s := pre + t + post;
    assert forall i :: 0 <= i < |pre| ==> s[i] == pre[i];
    assert forall i :: 0 <= i < |t| ==> s[|pre| + i] == t[i];
    assert forall i :: 0 <= i < |post| ==> s[|pre| + |t| + i] == post[i];
    var a := LeadingEnd(s, 0);
    if |t| == 0 {
      assert a == |s|;
    } else {
      assert a == |pre|;
      var b := TrailingStart(s, a, |s|);
      assert b == |pre| + |t|;
      assert s[a..b] == t;
    }
  }

  /** The sanitised form of `s` is exactly the trimmed text that remains,
      surrounded only by whitespace, once the illegal characters of `s` are
      deleted. */
  lemma SanitizeCharacterization(s: string, t: string)
    ensures Sanitize(s) == t <==>
      Trimmed(t) && exists pre, post :: AllSpace(pre) && AllSpace(post) && RemoveIllegal(s) == pre + t + post
  {
    var f := RemoveIllegal(s);
    if Sanitize(s) == t {
      var pre, post := StripIsInfix(f);
      assert AllSpace(pre) && AllSpace(post) && f == pre + t + post;
    }
    if Trimmed(t) && exists pre, post :: AllSpace(pre) && AllSpace(post) && f == pre + t + post {
      var pre, post :| AllSpace(pre) && AllSpace(post) && f == pre + t + post;
      StripPadded(pre, t, post);
    }
  }

  /** Deleting illegal characters commutes with concatenation, so it acts on
      each character independently and keeps the legal ones in order. */
  lemma {:induction false} RemoveIllegalConcat(a: string, b: string)
    ensures RemoveIllegal(a + b) == RemoveIllegal(a) + RemoveIllegal(b)
  {
    if |a| == 0 {
      assert a + b == b;
    } else {
      assert (a + b)[0] == a[0];
      assert (a + b)[1..] == a[1..] + b;
      RemoveIllegalConcat(a[1..], b);
    }
  }

  /** Every legal character keeps its number of occurrences; every illegal
      one disappears. */
  lemma {:induction false} RemoveIllegalCounts(s: string, c: char)
    ensures multiset(RemoveIllegal(s))[c] == if IsIllegal(c) then 0 else multiset(s)[c]
  {
    if |s| > 0 {
      assert s == [s[0]] + s[1..];
      RemoveIllegalCounts(s[1..], c);
    }
  }

  /** A text without illegal characters is left alone by the deletion step,
      and only such a text is. */
  lemma {:induction false} RemoveIllegalFixedPoints(s: string)
    ensures RemoveIllegal(s) == s <==> NoIllegal(s)
  {
    if |s| > 0 && NoIllegal(s) {
      assert NoIllegal(s[1..]) by {
        forall i | 0 <= i < |s| - 1 ensures !IsIllegal(s[1..][i]) {
          assert s[1..][i] == s[i + 1];
        }
      }
      RemoveIllegalFixedPoints(s[1..]);
    }
  }

  /** The sanitiser leaves `s` unchanged exactly when `s` has no illegal
      character and no surrounding whitespace. */
  lemma SanitizeFixedPoints(s: string)
    ensures Sanitize(s) == s <==> NoIllegal(s) && Trimmed(s)
  {
    if NoIllegal(s) && Trimmed(s) {
      RemoveIllegalFixedPoints(s);
      StripPadded("", s, "");
      assert "" + s + "" == s;
    }
  }

  /** Sanitising twice is sanitising once. */
  lemma SanitizeIdempotent(s: string)
    ensures Sanitize(Sanitize(s)) == Sanitize(s)
  {
    SanitizeFixedPoints(Sanitize(s));
  }

  lemma {:induction false} SubseqOfPrefix(t: string, post: string)
    ensures Subseq(t, t + post)
  {
    if |t| > 0 {
      assert (t + post)[1..] == t[1..] + post;
      SubseqOfPrefix(t[1..], post);
    }
  }

  lemma {:induction false} SubseqPrepend(a: string, pre: string, b: string)
    requires Subseq(a, b)
    ensures Subseq(a, pre + b)
  {
    if |pre| == 0 {
      assert pre + b == b;
    } else {
      assert (pre + b)[1..] == pre[1..] + b;
      SubseqPrepend(a, pre[1..], b);
    }
  }

  lemma {:induction false} SubseqTransitive(a: string, b: string, c: string)
    requires Subseq(a, b) && Subseq(b, c)
    ensures Subseq(a, c)
    decreases |c|
  {
    if |a| > 0 {
      if b[0] == c[0] && Subseq(b[1..], c[1..]) {
        if a[0] == b[0] && Subseq(a[1..], b[1..]) {
          SubseqTransitive(a[1..], b[1..], c[1..]);
        } else {
          SubseqTransitive(a, b[1..], c[1..]);
        }
      } else {
        SubseqTransitive(a, b, c[1..]);
      }
    }
  }

  lemma {:induction false} RemoveIllegalSubseq(s: string)
    ensures Subseq(RemoveIllegal(s), s)
  {
    if |s| > 0 {
      RemoveIllegalSubseq(s[1..]);
      if IsIllegal(s[0]) {
        SubseqPrepend(RemoveIllegal(s[1..]), [s[0]], s[1..]);
        assert [s[0]] + s[1..] == s;
      } else {
        assert RemoveIllegal(s)[1..] == RemoveIllegal(s[1..]);
      }
    }
  }

  /** The sanitiser only deletes: its output is `s` with some characters
      removed and the rest kept in order. */
  lemma SanitizeOnlyDeletes(s: string)
    ensures Subseq(Sanitize(s), s)
  {
    var f := RemoveIllegal(s);
    var r := Sanitize(s);
    var pre, post := StripIsInfix(f);
    assert f == pre + (r + post);
    SubseqOfPrefix(r, post);
    SubseqPrepend(r, pre, r + post);
    RemoveIllegalSubseq(s);
    SubseqTransitive(r, f, s);
  }
}
