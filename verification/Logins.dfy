/** GitHub logins are compared and stored in one normal form: stripped and lower-cased. */
module Logins {

  // The white space str.strip() removes, up to code point 0xA0.
  predicate IsSpace(c: char)
  {
    || 9 as char <= c <= 13 as char
    || 28 as char <= c <= 32 as char
    || c == 0x85 as char
    || c == 0xA0 as char
  }

  function LowerChar(c: char): char
  {
    if 'A' <= c <= 'Z' then (c as int + 32) as char else c
  }

  function Lower(s: string): (t: string)
    ensures |t| == |s| && forall i :: 0 <= i < |s| ==> t[i] == LowerChar(s[i])
  {
    if s == "" then "" else [LowerChar(s[0])] + Lower(s[1..])
  }

  function StripLeft(s: string): string
  {
    if s != "" && IsSpace(s[0]) then StripLeft(s[1..]) else s
  }

  function StripRight(s: string): string
  {
    if s != "" && IsSpace(s[|s| - 1]) then StripRight(s[..|s| - 1]) else s
  }

  function Normalize(login: string): string
  {
    Lower(StripRight(StripLeft(login)))
  }

  predicate Trimmed(s: string)
  {
    s == "" || (!IsSpace(s[0]) && !IsSpace(s[|s| - 1]))
  }

  lemma {:induction false} StripLeftTrims(s: string)
    ensures StripLeft(s) == "" || !IsSpace(StripLeft(s)[0])
  {
    if s != "" && IsSpace(s[0]) {
      StripLeftTrims(s[1..]);
    }
  }

  lemma {:induction false} StripRightTrims(s: string)
    requires s == "" || !IsSpace(s[0])
    ensures Trimmed(StripRight(s))
  {
    if s != "" && IsSpace(s[|s| - 1]) {
      StripRightTrims(s[..|s| - 1]);
    }
  }

  lemma {:induction false} LowerTwice(s: string)
    ensures Lower(Lower(s)) == Lower(s)
  {
    assert forall i :: 0 <= i < |s| ==> Lower(Lower(s))[i] == Lower(s)[i];
  }

  /** Normalizing twice is normalizing once, so a stored login always equals its own
      normal form and exact-match lookups find it. */
  lemma NormalizeTwice(login: string)
    ensures Normalize(Normalize(login)) == Normalize(login)
  {
    var bare := StripRight(StripLeft(login));
    StripLeftTrims(login);
    StripRightTrims(StripLeft(login));
    var normal := Lower(bare);
    LowerTwice(bare);
    assert Trimmed(normal);
    assert StripRight(StripLeft(normal)) == normal;
  }

  lemma {:induction false} StripLeftDrops(s: string) returns (i: nat)
    ensures i <= |s| && StripLeft(s) == s[i..] && forall k :: 0 <= k < i ==> IsSpace(s[k])
  {
    if s != "" && IsSpace(s[0]) {
      var rest := StripLeftDrops(s[1..]);
      i := rest + 1;
      assert forall k :: 0 < k < i ==> s[k] == s[1..][k - 1];
    } else {
      i := 0;
    }
  }

  lemma {:induction false} StripRightDrops(s: string) returns (j: nat)
    ensures j <= |s| && StripRight(s) == s[..j] && forall k :: j <= k < |s| ==> IsSpace(s[k])
  {
    if s != "" && IsSpace(s[|s| - 1]) {
      j := StripRightDrops(s[..|s| - 1]);
      assert s[..|s| - 1][..j] == s[..j];
    } else {
      j := |s|;
    }
  }

  /** The normal form is what is left between the outer white space, the capital letters
      turned into small ones and nothing else changed. */
  lemma NormalizeExactly(login: string) returns (i: nat, j: nat)
    ensures i <= j <= |login| && |Normalize(login)| == j - i
    ensures forall k :: 0 <= k < i || j <= k < |login| ==> IsSpace(login[k])
    ensures i < j ==> !IsSpace(login[i]) && !IsSpace(login[j - 1])
    ensures forall k :: 0 <= k < j - i ==>
      Normalize(login)[k] as int == login[i + k] as int + if 65 <= login[i + k] as int <= 90 then 32 else 0
  {
    i := StripLeftDrops(login);
    var cut := StripRightDrops(login[i..]);
    j := i + cut;
    StripLeftTrims(login);
    StripRightTrims(login[i..]);
    assert login[i..][..cut] == login[i..j];
    assert forall k :: 0 <= k < |login[i..]| ==> login[i..][k] == login[i + k];
    assert Normalize(login) == Lower(login[i..j]);
    hide StripLeft, StripRight, IsSpace, Normalize, Lower;
  }

  /** The white space that is stripped, by code point. */
  lemma SpacesByCode(c: char)
    ensures IsSpace(c) <==> c as int in {9, 10, 11, 12, 13, 28, 29, 30, 31, 32, 133, 160}
  {
  }
}
