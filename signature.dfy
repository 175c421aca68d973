/**
  The `validate_wechat_signature` middleware: the signing string is the
  shared token, the timestamp and the nonce sorted and concatenated; its
  UTF-8 bytes are hashed with SHA-1 and the hex digest must equal the
  supplied signature, or the request is refused with status 400.

  SHA-1 itself (FIPS 180-4) is a parameter: `sha1HexDigest(bytes)` stands
  for `hashlib.sha1(bytes).hexdigest()`.
 */
module Signature {
  import opened Text
  import Utf8

  // ---------------------------------------------------------------------
  // Lexicographic order on str
  // ---------------------------------------------------------------------

  /** Python's `a <= b` on `str`: code-point lexicographic order. */
  predicate LexLe(a: string, b: string)
    decreases |a|
  {
    if a == [] then true
    else if b == [] then false
    else if a[0] != b[0] then a[0] < b[0]
    else LexLe(a[1..], b[1..])
  }

  /**
    The order as usually stated: `a` is a prefix of `b`, or at the first
    position where they differ `a` has the smaller code point.
   */
  lemma {:induction false} LexLeIff(a: string, b: string)
    ensures LexLe(a, b) <==>
      (a <= b || exists k | 0 <= k < |a| && k < |b| :: a[..k] == b[..k] && a[k] < b[k])
    decreases |a|
  {
    if a != [] && b != [] && a[0] == b[0] {
      LexLeIff(a[1..], b[1..]);
      if exists k | 0 <= k < |a| - 1 && k < |b| - 1 :: a[1..][..k] == b[1..][..k] && a[1..][k] < b[1..][k] {
        var k :| 0 <= k < |a| - 1 && k < |b| - 1 && a[1..][..k] == b[1..][..k] && a[1..][k] < b[1..][k];
        assert a[..k + 1] == [a[0]] + a[1..][..k] && b[..k + 1] == [b[0]] + b[1..][..k];
      }
      if exists k | 0 <= k < |a| && k < |b| :: a[..k] == b[..k] && a[k] < b[k] {
        var k :| 0 <= k < |a| && k < |b| && a[..k] == b[..k] && a[k] < b[k];
        assert k > 0;
        assert a[1..][..k - 1] == a[1..k] && b[1..][..k - 1] == b[1..k];
        assert a[1..k] == b[1..k];
      }
      assert a <= b <==> a[1..] <= b[1..];
    } else if a != [] && b != [] {
      if exists k | 0 <= k < |a| && k < |b| :: a[..k] == b[..k] && a[k] < b[k] {
        var k :| 0 <= k < |a| && k < |b| && a[..k] == b[..k] && a[k] < b[k];
        CommonPrefixHead(a, b, k);
      }
      assert a[..0] == b[..0];
    }
  }

  /** A non-empty common prefix fixes the first characters. */
  lemma CommonPrefixHead(a: string, b: string, k: nat)
    requires k <= |a| && k <= |b| && a[..k] == b[..k]
    ensures k > 0 ==> a[0] == b[0]
  {
    if k > 0 {
      assert a[0] == a[..k][0];
    }
  }

  lemma {:induction false} LexLeTotal(a: string, b: string)
    ensures LexLe(a, b) || LexLe(b, a)
    decreases |a|
  {
    if a != [] && b != [] && a[0] == b[0] {
      LexLeTotal(a[1..], b[1..]);
    }
  }

  lemma {:induction false} LexLeAntisymmetric(a: string, b: string)
    requires LexLe(a, b) && LexLe(b, a)
    ensures a == b
    decreases |a|
  {
    if a != [] {
      LexLeAntisymmetric(a[1..], b[1..]);
      assert a == [a[0]] + a[1..] && b == [b[0]] + b[1..];
    }
  }

  lemma {:induction false} LexLeTransitive(a: string, b: string, c: string)
    requires LexLe(a, b) && LexLe(b, c)
    ensures LexLe(a, c)
    decreases |a|
  {
    if a != [] && a[0] == b[0] && b[0] == c[0] {
      LexLeTransitive(a[1..], b[1..], c[1..]);
    }
  }

  // ---------------------------------------------------------------------
  // sorted
  // ---------------------------------------------------------------------

  predicate SortedLex(s: seq<string>)
  {
    forall i, j | 0 <= i < j < |s| :: LexLe(s[i], s[j])
  }

  /** Insertion of one string into a sorted list. */
  function Insert(x: string, s: seq<string>): seq<string>
  {
    if s == [] then [x]
    else if LexLe(x, s[0]) then [x] + s
    else [s[0]] + Insert(x, s[1..])
  }

  /** Python's `sorted(s)` on a list of str. */
  function Sorted(s: seq<string>): seq<string>
  {
    if s == [] then [] else Insert(s[0], Sorted(s[1..]))
  }

  /** `x` is at most every element of `s`. */
  predicate LeAll(x: string, s: seq<string>)
  {
    forall k | 0 <= k < |s| :: LexLe(x, s[k])
  }

  lemma LeAllOfSorted(x: string, s: seq<string>)
    requires SortedLex(s) && s != [] && LexLe(x, s[0])
    ensures LeAll(x, s)
  {
    forall k | 0 <= k < |s| ensures LexLe(x, s[k]) {
      if k > 0 {
        LexLeTransitive(x, s[0], s[k]);
      }
    }
  }

  lemma ConsSorted(x: string, s: seq<string>)
    requires SortedLex(s) && LeAll(x, s)
    ensures SortedLex([x] + s)
  {
    var t := [x] + s;
    forall i, j | 0 <= i < j < |t| ensures LexLe(t[i], t[j]) {
      assert t[j] == s[j - 1];
      if i > 0 {
        assert t[i] == s[i - 1];
      }
    }
  }

  /** A bound on every element of `s` and on `x` bounds every element of a list holding only those. */
  lemma LeAllOfSubMultiset(y: string, t: seq<string>, s: seq<string>, x: string)
    requires LeAll(y, s) && LexLe(y, x)
    requires multiset(t) == multiset(s) + multiset{x}
    ensures LeAll(y, t)
  {
    forall k | 0 <= k < |t| ensures LexLe(y, t[k]) {
      assert t[k] in multiset(t);
      if t[k] != x {
        assert t[k] in multiset(s);
        var m :| 0 <= m < |s| && s[m] == t[k];
      }
    }
  }

  lemma SortedTail(s: seq<string>)
    requires SortedLex(s) && s != []
    ensures SortedLex(s[1..]) && LeAll(s[0], s[1..])
  {
    forall i, j | 0 <= i < j < |s[1..]| ensures LexLe(s[1..][i], s[1..][j]) {
      assert s[1..][i] == s[i + 1] && s[1..][j] == s[j + 1];
    }
    forall k | 0 <= k < |s[1..]| ensures LexLe(s[0], s[1..][k]) {
      assert s[1..][k] == s[k + 1];
    }
  }

  /** The elements of a non-empty list are its head and those of its tail. */
  lemma MultisetOfCons(s: seq<string>)
    requires s != []
    ensures multiset(s) == multiset{s[0]} + multiset(s[1..])
    ensures multiset(s[1..]) == multiset(s) - multiset{s[0]}
  {
    assert s == [s[0]] + s[1..];
  }

  lemma {:induction false} InsertSorts(x: string, s: seq<string>)
    requires SortedLex(s)
    ensures SortedLex(Insert(x, s))
    ensures multiset(Insert(x, s)) == multiset(s) + multiset{x}
    ensures |Insert(x, s)| == |s| + 1
    decreases |s|, 1
  {
    if s == [] {
    } else if LexLe(x, s[0]) {
      LeAllOfSorted(x, s);
      ConsSorted(x, s);
    } else {
      InsertAfterHead(x, s);
    }
  }

  lemma {:induction false} InsertAfterHead(x: string, s: seq<string>)
    requires SortedLex(s) && s != [] && !LexLe(x, s[0])
    ensures SortedLex(Insert(x, s))
    ensures multiset(Insert(x, s)) == multiset(s) + multiset{x}
    ensures |Insert(x, s)| == |s| + 1
    decreases |s|, 0
  {
    LexLeTotal(x, s[0]);
    SortedTail(s);
    InsertSorts(x, s[1..]);
    var t := Insert(x, s[1..]);
    assert Insert(x, s) == [s[0]] + t;
    LeAllOfSubMultiset(s[0], t, s[1..], x);
    ConsSorted(s[0], t);
    MultisetOfCons(s);
  }

  /** `sorted` returns a sorted permutation of its input. */
  lemma {:induction false} SortedSortsAndPermutes(s: seq<string>)
    ensures SortedLex(Sorted(s)) && multiset(Sorted(s)) == multiset(s) && |Sorted(s)| == |s|
  {
    if s != [] {
      var r := Sorted(s[1..]);
      SortedSortsAndPermutes(s[1..]);
      InsertSorts(s[0], r);
      assert Sorted(s) == Insert(s[0], r);
      MultisetOfCons(s);
    }
  }

  /** A sorted permutation is unique: two sorted lists with the same elements are equal. */
  lemma {:induction false} SortedUnique(a: seq<string>, b: seq<string>)
    requires SortedLex(a) && SortedLex(b) && multiset(a) == multiset(b)
    ensures a == b
    decreases |a|
  {
    if a != [] {
      assert a[0] in multiset(b);
      SameHead(a, b);
      MultisetOfCons(a);
      MultisetOfCons(b);
      SortedTail(a);
      SortedTail(b);
      SortedUnique(a[1..], b[1..]);
      assert a == [a[0]] + a[1..] && b == [b[0]] + b[1..];
    } else {
      assert |multiset(b)| == 0;
    }
  }

  /** Two non-empty sorted lists with the same elements start alike. */
  lemma SameHead(a: seq<string>, b: seq<string>)
    requires SortedLex(a) && SortedLex(b) && multiset(a) == multiset(b) && a != [] && b != []
    ensures a[0] == b[0]
  {
    assert a[0] in multiset(b);
    assert b[0] in multiset(a);
    var i :| 0 <= i < |b| && b[i] == a[0];
    var j :| 0 <= j < |a| && a[j] == b[0];
    if i > 0 {
      assert LexLe(b[0], a[0]);
    }
    if j > 0 {
      assert LexLe(a[0], b[0]);
    }
    if i > 0 && j > 0 {
      LexLeAntisymmetric(a[0], b[0]);
    }
  }

  /** `sorted` depends only on which strings it is given, not on their order. */
  lemma SortedPermutationInvariant(s: seq<string>, t: seq<string>)
    requires multiset(s) == multiset(t)
    ensures Sorted(s) == Sorted(t)
  {
    SortedSortsAndPermutes(s);
    SortedSortsAndPermutes(t);
    SortedUnique(Sorted(s), Sorted(t));
  }

  /** Permuting the pieces does not change their total length. */
  lemma {:induction false} TotalLengthPermutationInvariant(s: seq<string>, t: seq<string>)
    requires multiset(s) == multiset(t)
    ensures TotalLength(s) == TotalLength(t)
    decreases |s|
  {
    if s != [] {
      assert s[0] in multiset(t);
      var k :| 0 <= k < |t| && t[k] == s[0];
      var rest := t[..k] + t[k + 1..];
      MultisetOfCons(s);
      MultisetRemoveAt(t, k);
      TotalLengthPermutationInvariant(s[1..], rest);
      TotalLengthRemoveAt(t, k);
    } else {
      assert |multiset(t)| == 0;
    }
  }

  lemma MultisetRemoveAt(t: seq<string>, k: nat)
    requires k < |t|
    ensures multiset(t[..k] + t[k + 1..]) == multiset(t) - multiset{t[k]}
  {
    assert t == t[..k] + [t[k]] + t[k + 1..];
  }

  lemma TotalLengthRemoveAt(t: seq<string>, k: nat)
    requires k < |t|
    ensures TotalLength(t) == |t[k]| + TotalLength(t[..k] + t[k + 1..])
  {
    assert t == t[..k] + ([t[k]] + t[k + 1..]);
    TotalLengthSplit(t[..k], [t[k]] + t[k + 1..]);
    TotalLengthSplit(t[..k], t[k + 1..]);
    assert ([t[k]] + t[k + 1..])[1..] == t[k + 1..];
  }

  lemma {:induction false} TotalLengthSplit(a: seq<string>, b: seq<string>)
    ensures TotalLength(a + b) == TotalLength(a) + TotalLength(b)
  {
    if a != [] {
      assert (a + b)[1..] == a[1..] + b;
      TotalLengthSplit(a[1..], b);
    } else {
      assert a + b == b;
    }
  }

  // ---------------------------------------------------------------------
  // The signing string and the check
  // ---------------------------------------------------------------------

  /** The string that is hashed (middlewares.py:20): token, timestamp and nonce in sorted order, concatenated. */
  function SigningString(token: string, timestamp: string, nonce: string): string
  {
    Join(Sorted([token, timestamp, nonce]))
  }

  /** Joining three pieces. */
  lemma JoinThree(s: seq<string>)
    requires |s| == 3
    ensures Join(s) == s[0] + s[1] + s[2]
  {
    var t1 := s[1..];
    var t2 := t1[1..];
    assert t2[1..] == [];
    assert Join(t2) == s[2];
    assert Join(t1) == s[1] + Join(t2);
  }

  /** The total length of three pieces. */
  lemma TotalLengthThree(s: seq<string>)
    requires |s| == 3
    ensures TotalLength(s) == |s[0]| + |s[1]| + |s[2]|
  {
    var t1 := s[1..];
    var t2 := t1[1..];
    assert t2[1..] == [];
    assert TotalLength(t2) == |s[2]|;
    assert TotalLength(t1) == |s[1]| + TotalLength(t2);
  }

  /** The signing string is the three inputs in lexicographic order, concatenated. */
  lemma SigningStringIsSortedConcatenation(token: string, timestamp: string, nonce: string)
    ensures var s := Sorted([token, timestamp, nonce]);
      && |s| == 3
      && multiset(s) == multiset{token, timestamp, nonce}
      && LexLe(s[0], s[1]) && LexLe(s[1], s[2])
      && SigningString(token, timestamp, nonce) == s[0] + s[1] + s[2]
  {
    var input := [token, timestamp, nonce];
    var s := Sorted(input);
    SortedSortsAndPermutes(input);
    assert multiset(input) == multiset{token, timestamp, nonce};
    assert LexLe(s[0], s[1]) && LexLe(s[1], s[2]);
    JoinThree(s);
  }

  /** The signing string's length is the sum of the three input lengths. */
  lemma SigningStringLength(token: string, timestamp: string, nonce: string)
    ensures |SigningString(token, timestamp, nonce)| == |token| + |timestamp| + |nonce|
  {
    var input := [token, timestamp, nonce];
    var s := Sorted(input);
    SortedSortsAndPermutes(input);
    JoinLength(s);
    TotalLengthPermutationInvariant(s, input);
    TotalLengthThree(input);
  }

  /** Any permutation of the three inputs yields the same signing string. */
  lemma SigningStringPermutationInvariant(a: string, b: string, c: string, x: string, y: string, z: string)
    requires multiset{a, b, c} == multiset{x, y, z}
    ensures SigningString(a, b, c) == SigningString(x, y, z)
  {
    assert multiset([a, b, c]) == multiset{a, b, c};
    assert multiset([x, y, z]) == multiset{x, y, z};
    SortedPermutationInvariant([a, b, c], [x, y, z]);
  }

  /** What the middleware answers: the refusal, or the endpoint's result passed on unchanged. */
  datatype Reply<T> = Rejected(status: nat, content: string) | Forwarded(value: T)

  /** The inner `w` of `validate_wechat_signature(endpoint)`. */
  function ValidateWechatSignature<T>(wechatToken: string, signature: string, timestamp: string, nonce: string,
                                      sha1HexDigest: seq<Utf8.byte> -> string, endpoint: () -> T): Reply<T>
  {
    var digest := sha1HexDigest(Utf8.Encode(SigningString(wechatToken, timestamp, nonce)));
    if digest != signature then Rejected(400, "Invalid signature") else Forwarded(endpoint())
  }

  /**
    The request is forwarded exactly when the digest of the signing string's
    UTF-8 bytes equals the signature; then the endpoint's result is returned
    unchanged, otherwise a 400 "Invalid signature" and no endpoint result.
   */
  lemma ValidationOutcome<T>(wechatToken: string, signature: string, timestamp: string, nonce: string,
                             sha1HexDigest: seq<Utf8.byte> -> string, endpoint: () -> T)
    ensures var r := ValidateWechatSignature(wechatToken, signature, timestamp, nonce, sha1HexDigest, endpoint);
      && (r.Forwarded? <==> sha1HexDigest(Utf8.Encode(SigningString(wechatToken, timestamp, nonce))) == signature)
      && (r.Forwarded? ==> r.value == endpoint())
      && (r.Rejected? ==> r.status == 400 && r.content == "Invalid signature")
  {
  }

  /** The verdict does not depend on which of the three values is the token, the timestamp or the nonce. */
  lemma ValidationIgnoresOrder<T>(wechatToken: string, signature: string, timestamp: string, nonce: string,
                                  sha1HexDigest: seq<Utf8.byte> -> string, endpoint: () -> T)
    ensures ValidateWechatSignature(wechatToken, signature, timestamp, nonce, sha1HexDigest, endpoint)
         == ValidateWechatSignature(nonce, signature, wechatToken, timestamp, sha1HexDigest, endpoint)
    ensures ValidateWechatSignature(wechatToken, signature, timestamp, nonce, sha1HexDigest, endpoint)
         == ValidateWechatSignature(timestamp, signature, wechatToken, nonce, sha1HexDigest, endpoint)
  {
    SigningStringPermutationInvariant(wechatToken, timestamp, nonce, nonce, wechatToken, timestamp);
    SigningStringPermutationInvariant(wechatToken, timestamp, nonce, timestamp, wechatToken, nonce);
  }
}
