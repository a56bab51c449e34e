/** Composite keys built by joining two strings with a NUL byte. */
module Strings {
  predicate NulFree(s: string) {
    '\0' !in s
  }

  function Join(a: string, b: string): string {
    a + "\0" + b
  }

  /** The position of the last NUL, or -1. */
  function LastNul(s: string): (i: int)
    ensures -1 <= i < |s|
    ensures i == -1 <==> NulFree(s)
  {
    if s == "" then -1
    else if s[|s| - 1] == '\0' then |s| - 1
    else
      assert s == s[..|s| - 1] + [s[|s| - 1]];
      LastNul(s[..|s| - 1])
  }

  lemma {:induction false} LastNulOfJoin(a: string, b: string)
    requires NulFree(b)
    ensures LastNul(Join(a, b)) == |a|
  {
    if b != "" {
      var s := Join(a, b);
      assert s[..|s| - 1] == Join(a, b[..|b| - 1]);
      assert s[|s| - 1] == b[|b| - 1];
      LastNulOfJoin(a, b[..|b| - 1]);
    }
  }

  /** A join determines both parts when the second part has no NUL. */
  lemma JoinInjective(a: string, x: string, b: string, y: string)
    requires Join(a, x) == Join(b, y) && NulFree(x) && NulFree(y)
    ensures a == b && x == y
  {
    LastNulOfJoin(a, x);
    LastNulOfJoin(b, y);
    assert Join(a, x)[..|a|] == a && Join(b, y)[..|b|] == b;
    assert Join(a, x)[|a| + 1..] == x && Join(b, y)[|b| + 1..] == y;
  }

  /** The same when it is the first part that has no NUL. */
  lemma JoinInjectiveFront(a: string, x: string, b: string, y: string)
    requires Join(a, x) == Join(b, y) && NulFree(a) && NulFree(b)
    ensures a == b && x == y
  {
    var s := Join(a, x);
    assert s[|a|] == '\0' && s[|b|] == '\0';
    assert |a| <= |b| by {
      assert forall i :: 0 <= i < |b| ==> s[i] == b[i];
    }
    assert |b| <= |a| by {
      assert forall i :: 0 <= i < |a| ==> s[i] == a[i];
    }
    assert s[..|a|] == a && s[..|b|] == b;
    assert s[|a| + 1..] == x && s[|b| + 1..] == y;
  }

  /** Without such a condition, some joins of two different first parts are equal exactly if one of these parts,
      with its NUL, is the beginning of the other one. */
  lemma JoinsMeet(a: string, b: string)
    requires a != b
    ensures (exists x, y :: x != "" && y != "" && Join(a, x) == Join(b, y)) <==>
            Join(a, "") <= Join(b, "") || Join(b, "") <= Join(a, "")
  {
    if x, y :| x != "" && y != "" && Join(a, x) == Join(b, y) {
      assert Join(a, "") <= Join(a, x) && Join(b, "") <= Join(b, y);
    }
    if Join(a, "") <= Join(b, "") {
      JoinsMeetWhen(a, b);
    } else if Join(b, "") <= Join(a, "") {
      JoinsMeetWhen(b, a);
    }
  }

  lemma JoinsMeetWhen(a: string, b: string)
    requires a != b && Join(a, "") <= Join(b, "")
    ensures exists x, y :: x != "" && y != "" && Join(a, x) == Join(b, y)
    ensures exists x, y :: x != "" && y != "" && Join(b, y) == Join(a, x)
  {
    var rest := Join(b, "")[|a| + 1..];
    calc {
      Join(b, "y");
      Join(b, "") + "y";
      Join(a, "") + rest + "y";
      Join(a, rest + "y");
    }
  }
}
