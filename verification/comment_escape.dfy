// The rewrite applied to a comment before it is placed inside a doc block:
// a global regular-expression replace turns every `*/` into `*\/`, so the
// comment text cannot end the block early.
module CommentEscape {

  // The replacement text `*\/`.
  const EscapedClose: string := "*\\/"

  // A block-comment terminator `*/` starts at index `i` of `s`.
  predicate ClosesAt(s: string, i: int) {
    0 <= i && i + 1 < |s| && s[i] == '*' && s[i + 1] == '/'
  }

  predicate ContainsClose(s: string) {
    exists i | 0 <= i < |s| :: ClosesAt(s, i)
  }

  // A global regular-expression replace scans left to right, rewrites the
  // leftmost match and resumes after it; the scan below does the same.
  function Escape(s: string): (r: string)
    ensures |r| >= |s|
    ensures |s| > 0 ==> |r| > 0 && r[0] == s[0]
  {
    if |s| < 2 then s
    else if s[0] == '*' && s[1] == '/' then EscapedClose + Escape(s[2..])
    else [s[0]] + Escape(s[1..])
  }

  // The number of positions at which `*/` starts, counted one index at a
  // time, independently of how the replacement steps through the text.
  function CountCloses(s: string): nat {
    if |s| < 2 then 0
    else (if ClosesAt(s, 0) then 1 else 0) + CountCloses(s[1..])
  }

  lemma {:induction false} CountClosesPositive(s: string, i: int)
    requires ClosesAt(s, i)
    ensures CountCloses(s) > 0
    decreases i
  {
    if i > 0 {
      assert ClosesAt(s[1..], i - 1);
      CountClosesPositive(s[1..], i - 1);
    }
  }

  lemma {:induction false} CountClosesZero(s: string)
    requires !ContainsClose(s)
    ensures CountCloses(s) == 0
    decreases |s|
  {
    if |s| >= 2 {
      assert !ClosesAt(s, 0);
      forall i ensures !ClosesAt(s[1..], i) {
        if ClosesAt(s[1..], i) {
          assert ClosesAt(s, i + 1);
        }
      }
      CountClosesZero(s[1..]);
    }
  }

  // No `*/` survives the rewrite.
  lemma {:induction false} EscapeRemovesCloses(s: string)
    ensures !ContainsClose(Escape(s))
    decreases |s|
  {
    if |s| >= 2 {
      var r := Escape(s);
      if s[0] == '*' && s[1] == '/' {
        var t := Escape(s[2..]);
        EscapeRemovesCloses(s[2..]);
        forall i ensures !ClosesAt(r, i) {
          if i >= 3 {
            if ClosesAt(r, i) {
              assert ClosesAt(t, i - 3);
            }
          }
        }
      } else {
        var t := Escape(s[1..]);
        EscapeRemovesCloses(s[1..]);
        forall i ensures !ClosesAt(r, i) {
          if i >= 1 {
            if ClosesAt(r, i) {
              assert ClosesAt(t, i - 1);
            }
          }
        }
      }
    }
  }

  // Each terminator found adds exactly one character, the backslash.
  lemma {:induction false} EscapeLength(s: string)
    ensures |Escape(s)| == |s| + CountCloses(s)
    decreases |s|
  {
    if |s| >= 2 {
      if s[0] == '*' && s[1] == '/' {
        EscapeLength(s[2..]);
        assert !ClosesAt(s[1..], 0);
        if |s[1..]| >= 2 {
          assert s[1..][1..] == s[2..];
        }
      } else {
        EscapeLength(s[1..]);
      }
    }
  }

  // The rewrite leaves a comment untouched exactly when it holds no `*/`.
  lemma {:induction false} EscapeIdentity(s: string)
    ensures Escape(s) == s <==> !ContainsClose(s)
    decreases |s|
  {
    EscapeLength(s);
    if ContainsClose(s) {
      var i :| ClosesAt(s, i);
      CountClosesPositive(s, i);
    } else {
      CountClosesZero(s);
      EscapeUnchanged(s);
    }
  }

  lemma {:induction false} EscapeUnchanged(s: string)
    requires !ContainsClose(s)
    ensures Escape(s) == s
    decreases |s|
  {
    if |s| >= 2 {
      assert !ClosesAt(s, 0);
      forall i ensures !ClosesAt(s[1..], i) {
        if ClosesAt(s[1..], i) {
          assert ClosesAt(s, i + 1);
        }
      }
      EscapeUnchanged(s[1..]);
    }
  }

  // A comment without `*` holds no terminator.
  lemma NoStarNoClose(s: string)
    requires forall i :: 0 <= i < |s| ==> s[i] != '*'
    ensures !ContainsClose(s)
  {
  }

  // The rewrite works piecewise when the cut cannot split a `*/`: text
  // before the cut that holds no terminator and does not end in `*` is
  // copied unchanged.
  lemma {:induction false} EscapeConcat(a: string, b: string)
    requires !ContainsClose(a)
    requires |a| == 0 || a[|a| - 1] != '*'
    ensures Escape(a + b) == a + Escape(b)
    decreases |a|
  {
    if |a| > 0 {
      var ab := a + b;
      assert !ClosesAt(a, 0);
      assert ab[1..] == a[1..] + b;
      forall i ensures !ClosesAt(a[1..], i) {
        if ClosesAt(a[1..], i) {
          assert ClosesAt(a, i + 1);
        }
      }
      EscapeConcat(a[1..], b);
      if |ab| >= 2 {
        if |a| == 1 {
          assert ab[0] != '*';
        } else {
          assert ab[1] == a[1];
        }
      }
    } else {
      assert a + b == b;
    }
  }

}
