/**
 The character-pool size of `calculate_entropy`: every class that occurs at
 least once in the password adds its full size, however many of its characters
 the password holds.
 */
module Pool {
  import opened CharClasses

  /** Python's `any(<class test> for char in password)`. */
  predicate Occurs(pw: string, k: CharClass): (b: bool)
    ensures b <==> exists c :: c in pw && InClass(c, k)
  {
    exists i :: 0 <= i < |pw| && InClass(pw[i], k)
  }

  /** A character that belongs to one of the five classes. */
  predicate Classified(c: char) {
    exists k :: InClass(c, k)
  }

  /** The set of classes the password draws from. */
  function Present(pw: string): (s: set<CharClass>)
    ensures s <= AllClasses
    ensures forall k :: k in s <==> Occurs(pw, k)
  {
    set k | k in AllClasses && Occurs(pw, k)
  }

  /** The pool size as the source accumulates it: one test per class, in the
      order lowercase, uppercase, digit, punctuation, whitespace. */
  function PoolSize(pw: string): (n: nat)
    ensures n <= 95
    ensures n == 0 <==> forall i :: 0 <= i < |pw| ==> !Classified(pw[i])
  {
    (if Occurs(pw, Lower) then 26 else 0)
    + (if Occurs(pw, Upper) then 26 else 0)
    + (if Occurs(pw, Digit) then 10 else 0)
    + (if Occurs(pw, Punct) then |Punctuation| else 0)
    + (if Occurs(pw, Space) then 1 else 0)
  }

  /** Sum of the class sizes over a set of classes, in no particular order. */
  ghost function ClassSum(s: set<CharClass>): nat
  {
    if s == {} then 0
    else
      var k :| k in s;
      Size(k) + ClassSum(s - {k})
  }

  /** Any member of the set may be taken out first. */
  lemma {:induction false} ClassSumRemove(s: set<CharClass>, y: CharClass)
    requires y in s
    ensures ClassSum(s) == Size(y) + ClassSum(s - {y})
  {
    var x :| x in s && ClassSum(s) == Size(x) + ClassSum(s - {x});
    if x != y {
      calc {
        ClassSum(s);
        Size(x) + ClassSum(s - {x});
        { ClassSumRemove(s - {x}, y); }
        Size(x) + Size(y) + ClassSum(s - {x} - {y});
        { assert s - {x} - {y} == s - {y} - {x}; ClassSumRemove(s - {y}, x); }
        Size(y) + ClassSum(s - {y});
      }
    }
  }

  function Contribution(s: set<CharClass>, k: CharClass): nat {
    if k in s then Size(k) else 0
  }

  /** The five contributions added up in the source's order. */
  function Contributions(s: set<CharClass>): nat {
    Contribution(s, Lower) + Contribution(s, Upper) + Contribution(s, Digit)
      + Contribution(s, Punct) + Contribution(s, Space)
  }

  /** Taking a class out of the set takes its size out of the contributions. */
  lemma ContributionsRemove(s: set<CharClass>, y: CharClass)
    requires y in s
    ensures Contributions(s) == Size(y) + Contributions(s - {y})
  {
    var t := s - {y};
    match y
    case Lower =>
      assert Contribution(s, Upper) == Contribution(t, Upper) && Contribution(s, Digit) == Contribution(t, Digit)
        && Contribution(s, Punct) == Contribution(t, Punct) && Contribution(s, Space) == Contribution(t, Space);
    case Upper =>
      assert Contribution(s, Lower) == Contribution(t, Lower) && Contribution(s, Digit) == Contribution(t, Digit)
        && Contribution(s, Punct) == Contribution(t, Punct) && Contribution(s, Space) == Contribution(t, Space);
    case Digit =>
      assert Contribution(s, Lower) == Contribution(t, Lower) && Contribution(s, Upper) == Contribution(t, Upper)
        && Contribution(s, Punct) == Contribution(t, Punct) && Contribution(s, Space) == Contribution(t, Space);
    case Punct =>
      assert Contribution(s, Lower) == Contribution(t, Lower) && Contribution(s, Upper) == Contribution(t, Upper)
        && Contribution(s, Digit) == Contribution(t, Digit) && Contribution(s, Space) == Contribution(t, Space);
    case Space =>
      assert Contribution(s, Lower) == Contribution(t, Lower) && Contribution(s, Upper) == Contribution(t, Upper)
        && Contribution(s, Digit) == Contribution(t, Digit) && Contribution(s, Punct) == Contribution(t, Punct);
  }

  /** The set sum written out over the five classes. */
  lemma {:induction false} ClassSumByClass(s: set<CharClass>)
    ensures ClassSum(s) == Contributions(s)
    decreases |s|
  {
    if s != {} {
      var y :| y in s;
      ClassSumRemove(s, y);
      ClassSumByClass(s - {y});
      ContributionsRemove(s, y);
    }
  }

  /** The pool size is the sum of the sizes of the classes present. */
  lemma PoolSizeIsClassSum(pw: string)
    ensures PoolSize(pw) == ClassSum(Present(pw))
  {
    ClassSumByClass(Present(pw));
  }

  /** The pool size depends only on which characters occur, not on their
      order or how often each occurs. */
  lemma PoolSizeDependsOnCharacters(a: string, b: string)
    requires forall c :: c in a <==> c in b
    ensures Present(a) == Present(b)
    ensures PoolSize(a) == PoolSize(b)
  {
    forall k | Occurs(a, k)
      ensures Occurs(b, k)
    {
      var i :| 0 <= i < |a| && InClass(a[i], k);
      assert a[i] in b;
    }
    forall k | Occurs(b, k)
      ensures Occurs(a, k)
    {
      var i :| 0 <= i < |b| && InClass(b[i], k);
      assert b[i] in a;
    }
  }

  /** The largest pool is 95, reached exactly when all five classes occur. */
  lemma PoolSizeMaximum(pw: string)
    ensures PoolSize(pw) == 95 <==> Present(pw) == AllClasses
  {
    PunctuationSize();
    if PoolSize(pw) == 95 {
      assert forall k :: k in AllClasses ==> Occurs(pw, k);
    }
  }

  /** A single lowercase letter draws from a pool of 26. */
  lemma PoolSizeOneLower()
    ensures PoolSize("a") == 26
  {
    assert InClass("a"[0], Lower);
  }

  /** Four classes present: 26 + 26 + 10 + 32. */
  lemma PoolSizeFourClasses()
    ensures PoolSize("Aa1!") == 94
  {
    PunctuationSize();
    var p := "Aa1!";
    assert InClass(p[0], Upper) && InClass(p[1], Lower) && InClass(p[2], Digit) && InClass(p[3], Punct);
    assert !Occurs(p, Space);
  }

  /** The bell character BEL (U+0007) is in none of the five classes, so the
      password made of it alone has pool size 0. */
  lemma PoolSizeUnclassified()
    ensures PoolSize("\U{7}") == 0
  {
    var bell := "\U{7}";
    assert !Classified(bell[0]) by {
      PunctuationRanges(bell[0]);
    }
  }
}
