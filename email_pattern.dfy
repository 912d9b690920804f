/**
 * The e-mail pattern `^[^\s@]+@[^\s@]+\.[^\s@]+$` of the sign-in form, as an
 * anchored matcher over a small pattern language, and its structural meaning.
 *
 * JavaScript runs the pattern over UTF-16 code units. Every character the pattern
 * names (`@`, `.`, the `\s` class) is a single code unit outside the surrogate
 * range, and `[^\s@]` accepts both halves of a surrogate pair, so matching over
 * Unicode scalar values accepts exactly the same strings.
 */
module EmailPattern {
  import JsString

  /** One character position of a pattern: a literal, or the class `[^\s@]`. */
  datatype Atom = Lit(c: char) | NotSpaceOrAt

  /** An atom taken exactly once, or any number of times (`a*`); `a+` is `a a*`. */
  datatype Term = Once(atom: Atom) | Star(atom: Atom)

  predicate AtomMatches(a: Atom, c: char)
  {
    match a
    case Lit(l) => c == l
    case NotSpaceOrAt => c != '@' && !JsString.IsWhitespace(c)
  }

  /** The number of terms of `p` that must consume a character. */
  function MinLength(p: seq<Term>): nat
  {
    if p == [] then 0 else (if p[0].Once? then 1 else 0) + MinLength(p[1..])
  }

  /**
   * `^p$` accepts `s`: the terms of `p`, in order, consume all of `s`; so an
   * accepted string is at least as long as the mandatory terms of `p`.
   */
  predicate Matches(p: seq<Term>, s: string)
    decreases |p|, |s|
    ensures Matches(p, s) ==> |s| >= MinLength(p)
  {
    if p == [] then s == []
    else match p[0]
      case Once(a) => |s| > 0 && AtomMatches(a, s[0]) && Matches(p[1..], s[1..])
      case Star(a) =>
        || Matches(p[1..], s)
        || (|s| > 0 && AtomMatches(a, s[0]) && Matches(p, s[1..]))
  }

  // The pattern, and the suffixes of it the proofs below walk through.
  const Word: Term := Once(NotSpaceOrAt)
  const MoreWord: Term := Star(NotSpaceOrAt)
  /** `[^\s@]*` */
  const WordTail: seq<Term> := [MoreWord]
  /** `[^\s@]*\.[^\s@]+` */
  const DotTail: seq<Term> := [MoreWord, Once(Lit('.')), Word, MoreWord]
  /** `[^\s@]+\.[^\s@]+`, the part after the `@` */
  const Domain: seq<Term> := [Word] + DotTail
  /** `[^\s@]*@[^\s@]+\.[^\s@]+` */
  const AtTail: seq<Term> := [MoreWord, Once(Lit('@'))] + Domain
  /** `^[^\s@]+@[^\s@]+\.[^\s@]+$` */
  const Email: seq<Term> := [Word] + AtTail

  /** Every character of `s` is in `[^\s@]`. */
  predicate Clean(s: string)
  {
    forall i :: 0 <= i < |s| ==> AtomMatches(NotSpaceOrAt, s[i])
  }

  /** `d` holds a '.' that is neither its first nor its last character. */
  predicate InnerDot(d: string)
  {
    exists j :: 0 < j < |d| - 1 && d[j] == '.'
  }

  /**
   * The structural reading of the pattern: no whitespace, exactly one '@',
   * something before it, and after it a part with an inner '.'.
   */
  predicate WellFormedEmail(s: string)
  {
    && JsString.NoWhitespace(s)
    && multiset(s)['@'] == 1
    && exists i :: 0 < i < |s| && s[i] == '@' && InnerDot(s[i + 1..])
  }

  /** `s` splits as local part, '@' at index `i`, domain; the pattern's own shape. */
  predicate SplitAt(s: string, i: int)
  {
    && 0 <= i < |s|
    && Clean(s[..i])
    && s[i] == '@'
    && Clean(s[i + 1..])
    && InnerDot(s[i + 1..])
  }

  lemma {:induction false} WordTailMatches(s: string)
    ensures Matches(WordTail, s) <==> Clean(s)
    decreases |s|
  {
    assert WordTail[1..] == [];
    if s != [] {
      WordTailMatches(s[1..]);
      assert Clean(s) <==> AtomMatches(NotSpaceOrAt, s[0]) && Clean(s[1..]) by {
        if Clean(s) {
          assert forall i :: 0 <= i < |s[1..]| ==> s[1..][i] == s[i + 1];
        }
        if AtomMatches(NotSpaceOrAt, s[0]) && Clean(s[1..]) {
          assert forall i :: 0 < i < |s| ==> s[i] == s[1..][i - 1];
        }
      }
    }
  }

  /** `[^\s@]+` with nothing after it. */
  lemma WordEndMatches(s: string)
    ensures Matches([Word] + WordTail, s) <==> |s| > 0 && Clean(s)
  {
    assert ([Word] + WordTail)[1..] == WordTail;
    if s != [] {
      WordTailMatches(s[1..]);
      assert Clean(s) <==> AtomMatches(NotSpaceOrAt, s[0]) && Clean(s[1..]) by {
        if Clean(s) {
          assert forall i :: 0 <= i < |s[1..]| ==> s[1..][i] == s[i + 1];
        }
        if AtomMatches(NotSpaceOrAt, s[0]) && Clean(s[1..]) {
          assert forall i :: 0 < i < |s| ==> s[i] == s[1..][i - 1];
        }
      }
    }
  }

  /** `[^\s@]*\.[^\s@]+`: clean, with a '.' somewhere before the last character. */
  lemma {:induction false} DotTailMatches(s: string)
    ensures Matches(DotTail, s) <==> Clean(s) && exists j :: 0 <= j < |s| - 1 && s[j] == '.'
    decreases |s|
  {
    var afterDot := [Word] + WordTail;
    assert DotTail[1..] == [Once(Lit('.'))] + afterDot;
    assert ([Once(Lit('.'))] + afterDot)[1..] == afterDot;
    if s == [] {
      return;
    }
    WordEndMatches(s[1..]);
    DotTailMatches(s[1..]);
    assert AtomMatches(NotSpaceOrAt, '.');
    if Clean(s) {
      assert forall i :: 0 <= i < |s[1..]| ==> s[1..][i] == s[i + 1];
      assert Clean(s[1..]);
    }
    if AtomMatches(NotSpaceOrAt, s[0]) && Clean(s[1..]) {
      assert forall i :: 0 < i < |s| ==> s[i] == s[1..][i - 1];
      assert Clean(s);
    }
    if Matches(DotTail, s) {
      if !Matches(DotTail[1..], s) {
        var j :| 0 <= j < |s[1..]| - 1 && s[1..][j] == '.';
        assert s[j + 1] == '.';
      }
    }
    if Clean(s) && exists j :: 0 <= j < |s| - 1 && s[j] == '.' {
      var j :| 0 <= j < |s| - 1 && s[j] == '.';
      if j > 0 {
        assert s[1..][j - 1] == '.';
      }
    }
  }

  /** The part after the '@': clean, with an inner '.'. */
  lemma DomainMatches(d: string)
    ensures Matches(Domain, d) <==> Clean(d) && InnerDot(d)
  {
    assert Domain[1..] == DotTail;
    if d != [] {
      DotTailMatches(d[1..]);
      if Clean(d) {
        assert forall i :: 0 <= i < |d[1..]| ==> d[1..][i] == d[i + 1];
      }
      if AtomMatches(NotSpaceOrAt, d[0]) && Clean(d[1..]) {
        assert forall i :: 0 < i < |d| ==> d[i] == d[1..][i - 1];
      }
      if InnerDot(d) {
        var j :| 0 < j < |d| - 1 && d[j] == '.';
        assert d[1..][j - 1] == '.';
      }
      if exists j :: 0 <= j < |d[1..]| - 1 && d[1..][j] == '.' {
        var j :| 0 <= j < |d[1..]| - 1 && d[1..][j] == '.';
        assert d[j + 1] == '.';
      }
    }
  }

  /** `[^\s@]*@` followed by a domain: some split with a possibly empty local part. */
  lemma {:induction false} AtTailMatches(s: string)
    ensures Matches(AtTail, s) <==> exists i :: SplitAt(s, i)
    decreases |s|
  {
    assert AtTail[1..] == [Once(Lit('@'))] + Domain;
    assert ([Once(Lit('@'))] + Domain)[1..] == Domain;
    if s == [] {
      return;
    }
    DomainMatches(s[1..]);
    AtTailMatches(s[1..]);
    if Matches(AtTail, s) {
      if Matches(AtTail[1..], s) {
        assert s[..0] == [] && s[1..] == s[0 + 1..];
        assert SplitAt(s, 0);
      } else {
        var k :| SplitAt(s[1..], k);
        assert s[..k + 1] == [s[0]] + s[1..][..k];
        assert s[k + 1 + 1..] == s[1..][k + 1..];
        assert SplitAt(s, k + 1);
      }
    }
    if exists i :: SplitAt(s, i) {
      var i :| SplitAt(s, i);
      if i == 0 {
        assert Matches(AtTail[1..], s);
      } else {
        assert AtomMatches(NotSpaceOrAt, s[..i][0]);
        assert s[1..][..i - 1] == s[1..i];
        assert forall m :: 0 <= m < i - 1 ==> s[1..i][m] == s[..i][m + 1];
        assert s[1..][i - 1 + 1..] == s[i + 1..];
        assert SplitAt(s[1..], i - 1);
      }
    }
  }

  /** The matcher's reading of the pattern: a non-empty local part, '@', a domain. */
  lemma EmailMatchesSplit(s: string)
    ensures Matches(Email, s) <==> exists i :: 0 < i && SplitAt(s, i)
  {
    assert Email[1..] == AtTail;
    if s != [] {
      AtTailMatches(s[1..]);
      if Matches(Email, s) {
        var k :| SplitAt(s[1..], k);
        assert s[..k + 1] == [s[0]] + s[1..][..k];
        assert s[k + 1 + 1..] == s[1..][k + 1..];
        assert SplitAt(s, k + 1);
      }
      if exists i :: 0 < i && SplitAt(s, i) {
        var i :| 0 < i && SplitAt(s, i);
        assert AtomMatches(NotSpaceOrAt, s[..i][0]);
        assert s[1..][..i - 1] == s[1..i];
        assert forall m :: 0 <= m < i - 1 ==> s[1..i][m] == s[..i][m + 1];
        assert s[1..][i - 1 + 1..] == s[i + 1..];
        assert SplitAt(s[1..], i - 1);
      }
    }
  }

  /** A string of `[^\s@]` characters holds no '@'. */
  lemma CleanHasNoAt(t: string)
    requires Clean(t)
    ensures multiset(t)['@'] == 0
  {
    assert '@' !in t;
  }

  /** Cutting `s` around index `i`. */
  lemma Pieces(s: string, i: int)
    requires 0 <= i < |s|
    ensures s == s[..i] + [s[i]] + s[i + 1..]
    ensures multiset(s) == multiset(s[..i]) + multiset{s[i]} + multiset(s[i + 1..])
  {
    assert s == s[..i] + [s[i]] + s[i + 1..];
  }

  /** A split in the pattern's shape is a well-formed address. */
  lemma SplitIsWellFormed(s: string, i: int)
    requires 0 < i && SplitAt(s, i)
    ensures WellFormedEmail(s)
  {
    Pieces(s, i);
    CleanHasNoAt(s[..i]);
    CleanHasNoAt(s[i + 1..]);
    forall k | 0 <= k < |s|
      ensures !JsString.IsWhitespace(s[k])
    {
      if k < i {
        assert s[k] == s[..i][k];
      } else if k > i {
        assert s[k] == s[i + 1..][k - i - 1];
      }
    }
  }

  /** A piece of a whitespace-free string that holds no '@' is clean. */
  lemma NoAtIsClean(s: string, lo: int, hi: int)
    requires 0 <= lo <= hi <= |s|
    requires JsString.NoWhitespace(s) && multiset(s[lo..hi])['@'] == 0
    ensures Clean(s[lo..hi])
  {
    var t := s[lo..hi];
    forall k | 0 <= k < |t|
      ensures AtomMatches(NotSpaceOrAt, t[k])
    {
      assert t[k] == s[lo + k];
      assert t[k] in multiset(t);
    }
  }

  /** Around its only '@', a whitespace-free string is clean on both sides. */
  lemma CleanAroundAt(s: string, i: int)
    requires 0 <= i < |s| && s[i] == '@'
    requires JsString.NoWhitespace(s) && multiset(s)['@'] == 1
    ensures Clean(s[..i]) && Clean(s[i + 1..])
  {
    Pieces(s, i);
    assert multiset(s[..i])['@'] == 0 && multiset(s[i + 1..])['@'] == 0;
    assert s[..i] == s[0..i] && s[i + 1..] == s[i + 1..|s|];
    NoAtIsClean(s, 0, i);
    NoAtIsClean(s, i + 1, |s|);
  }

  /** The '@' of a well-formed address splits it in the pattern's shape. */
  lemma WellFormedIsSplit(s: string) returns (i: int)
    requires WellFormedEmail(s)
    ensures 0 < i && SplitAt(s, i)
  {
    i :| 0 < i < |s| && s[i] == '@' && InnerDot(s[i + 1..]);
    CleanAroundAt(s, i);
  }

  /**
   * The e-mail pattern accepts exactly the well-formed addresses: no whitespace,
   * exactly one '@' with a non-empty part before it, and after the '@' a part
   * with a '.' that is neither its first nor its last character.
   */
  lemma EmailPatternMeaning(s: string)
    ensures Matches(Email, s) <==> WellFormedEmail(s)
  {
    EmailMatchesSplit(s);
    if exists i :: 0 < i && SplitAt(s, i) {
      var i :| 0 < i && SplitAt(s, i);
      SplitIsWellFormed(s, i);
    }
    if WellFormedEmail(s) {
      var i := WellFormedIsSplit(s);
    }
  }

  /** The shortest address the pattern accepts has five characters, like "a@b.c". */
  lemma EmailMinLength(s: string)
    ensures Matches(Email, s) ==> |s| >= 5
  {
    MinLengthAppend([MoreWord, Once(Lit('.'))], [Word, MoreWord]);
    MinLengthAppend([Word], DotTail);
    MinLengthAppend([MoreWord, Once(Lit('@'))], Domain);
    MinLengthAppend([Word], AtTail);
  }

  /** The mandatory terms of a concatenation are those of its parts. */
  lemma {:induction false} MinLengthAppend(a: seq<Term>, b: seq<Term>)
    ensures MinLength(a + b) == MinLength(a) + MinLength(b)
  {
    if a == [] {
      assert a + b == b;
    } else {
      assert (a + b)[1..] == a[1..] + b;
      MinLengthAppend(a[1..], b);
    }
  }

  /** A well-formed address contains an '@'. */
  lemma WellFormedHasAt(s: string)
    ensures WellFormedEmail(s) ==> '@' in s
  {
    if WellFormedEmail(s) {
      var i :| 0 < i < |s| && s[i] == '@' && InnerDot(s[i + 1..]);
    }
  }
}
