/** Two facts about the sizes of finite sets. */
module Sets {
  lemma SubsetSize<T>(a: set<T>, b: set<T>)
    requires a <= b
    ensures |a| <= |b|
  {
    assert b == a + (b - a);
  }

  lemma OneMoreCounted<T>(keys: set<T>, seen: set<T>, x: T)
    ensures |keys * (seen + {x})| == |keys * seen| + (if x in keys && x !in seen then 1 else 0)
  {
    if x in keys && x !in seen {
      assert keys * (seen + {x}) == keys * seen + {x};
    } else {
      assert keys * (seen + {x}) == keys * seen;
    }
  }

  lemma {:induction false} SubsetOfSize<T>(s: set<T>, n: nat) returns (t: set<T>)
    requires n <= |s|
    ensures t <= s && |t| == n
  {
    if n == 0 {
      t := {};
    } else {
      var x :| x in s;
      t := SubsetOfSize(s - {x}, n - 1);
      t := t + {x};
    }
  }
}

