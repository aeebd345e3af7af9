/** Backtracking enumeration of balanced strings (Python/generateparenthesis.py). */
module GenerateParenthesis {
  import opened SeqTools

  /** prefix in front of each string */
  function Prepend(prefix: string, ss: seq<string>): (r: seq<string>)
    ensures |r| == |ss| && forall i :: 0 <= i < |ss| ==> r[i] == prefix + ss[i]
  {
    seq(|ss|, i requires 0 <= i < |ss| => prefix + ss[i])
  }

  lemma PrependTwice(prefix: string, c: string, ss: seq<string>)
    ensures Prepend(prefix, Prepend(c, ss)) == Prepend(prefix + c, ss)
  {
    assert forall i :: 0 <= i < |ss| ==> prefix + (c + ss[i]) == (prefix + c) + ss[i];
  }

  /** What backtrack appends with a opening and b closing parentheses still to place */
  function Completions(a: nat, b: nat): seq<string>
    requires a <= b
  {
    if b == 0 then [""]
    else (if a > 0 then Prepend("(", Completions(a - 1, b)) else [])
         + (if a < b then Prepend(")", Completions(a, b - 1)) else [])
  }

  /** The strings a call with the given stack appends */
  function Added(stack: string, a: nat, b: nat): seq<string>
    requires a <= b
  {
    Prepend(stack, Completions(a, b))
  }

  lemma AddedSplits(stack: string, a: nat, b: nat)
    requires a <= b && b > 0
    ensures Added(stack, a, b) == (if a > 0 then Added(stack + "(", a - 1, b) else [])
                                  + (if a < b then Added(stack + ")", a, b - 1) else [])
  {
    if a > 0 {
      PrependTwice(stack, "(", Completions(a - 1, b));
    }
    if a < b {
      PrependTwice(stack, ")", Completions(a, b - 1));
    }
  }

  class Generator {
    const n: int
    var stack: string
    var res: seq<string>

    constructor (n: int)
      ensures this.n == n && stack == "" && res == []
    {
      this.n := n;
      stack, res := "", [];
    }

    /** Appends the completions of the stack and leaves the stack as it was */
    method Backtrack(openN: nat, closedN: nat)
      requires closedN <= openN && (openN <= n || openN == 0)
      modifies this
      ensures stack == old(stack)
      ensures n >= 0 ==> res == old(res) + Added(old(stack), n - openN, n - closedN)
      ensures n < 0 ==> res == old(res)
      decreases 2 * n - openN - closedN
    {
      if openN == closedN == n {
        assert stack + "" == stack;
        res := res + [stack];
        return;
      }
      ghost var before := res;
      ghost var byOpening: seq<string>, byClosing: seq<string> := [], [];
      if openN < n {
        byOpening := Added(stack + "(", n - openN - 1, n - closedN);
        stack := stack + "(";
        Backtrack(openN + 1, closedN);
        stack := stack[..|stack| - 1];
      }
      if closedN < openN {
        byClosing := Added(stack + ")", n - openN, n - closedN - 1);
        stack := stack + ")";
        Backtrack(openN, closedN + 1);
        stack := stack[..|stack| - 1];
      }
      Associative(before, byOpening, byClosing);
      if n >= 0 {
        AddedSplits(stack, n - openN, n - closedN);
      }
    }
  }

  /** The strings for n pairs; none at all for a negative n */
  function Generated(n: int): seq<string> { if n < 0 then [] else Completions(n, n) }

  method Generate(n: int) returns (res: seq<string>)
    ensures res == Generated(n)
  {
    var g := new Generator(n);
    g.Backtrack(0, 0);
    if n >= 0 {
      ghost var all := Completions(n, n);
      assert forall i :: 0 <= i < |all| ==> "" + all[i] == all[i];
      assert Prepend("", all) == all;
    }
    res := g.res;
  }

  // ----- exactness -----

  function Depth(s: string): int {
    if s == "" then 0 else (if s[0] == '(' then 1 else -1) + Depth(s[1..])
  }

  predicate OnlyParentheses(s: string) { forall i :: 0 <= i < |s| ==> s[i] == '(' || s[i] == ')' }

  /** Only parentheses, no prefix closes more than it opens, and all is closed at the end */
  ghost predicate Balanced(s: string) {
    && OnlyParentheses(s)
    && (forall k :: 0 <= k <= |s| ==> Depth(s[..k]) >= 0)
    && Depth(s) == 0
  }

  /** Reading s from depth d never goes below zero and ends at zero */
  predicate Closes(s: string, d: int) {
    d >= 0 &&
    if s == "" then d == 0
    else (s[0] == '(' && Closes(s[1..], d + 1)) || (s[0] == ')' && Closes(s[1..], d - 1))
  }

  ghost predicate StaysUp(s: string, d: int) { forall k :: 0 <= k <= |s| ==> d + Depth(s[..k]) >= 0 }

  lemma StaysUpStep(s: string, d: int, up: int)
    requires s != "" && up == if s[0] == '(' then 1 else -1
    ensures StaysUp(s, d) <==> d >= 0 && StaysUp(s[1..], d + up)
  {
    forall k | 1 <= k <= |s| ensures Depth(s[..k]) == up + Depth(s[1..][..k - 1]) {
      assert s[..k][1..] == s[1..][..k - 1];
    }
    assert s[..0] == "";
    if StaysUp(s, d) {
      forall k | 0 <= k <= |s[1..]| ensures d + up + Depth(s[1..][..k]) >= 0 {
        assert Depth(s[..k + 1]) == up + Depth(s[1..][..k]);
      }
    }
  }

  lemma OnlyParenthesesStep(s: string)
    requires s != ""
    ensures OnlyParentheses(s) <==> (s[0] == '(' || s[0] == ')') && OnlyParentheses(s[1..])
  {
  }

  lemma {:induction false} ClosesMeaning(s: string, d: int)
    ensures Closes(s, d) <==> OnlyParentheses(s) && StaysUp(s, d) && d + Depth(s) == 0
  {
    if s == "" {
      assert s[..0] == "";
    } else {
      var up := if s[0] == '(' then 1 else -1;
      ClosesMeaning(s[1..], d + up);
      StaysUpStep(s, d, up);
      OnlyParenthesesStep(s);
    }
  }

  lemma PrependMember(c: char, ss: seq<string>, s: string)
    ensures s in Prepend([c], ss) <==> s != "" && s[0] == c && s[1..] in ss
  {
    if s != "" && s[0] == c && s[1..] in ss {
      var i :| 0 <= i < |ss| && ss[i] == s[1..];
      assert Prepend([c], ss)[i] == s;
    }
  }

  ghost predicate ExactAt(a: nat, b: nat, s: string)
    requires a <= b
  {
    s in Completions(a, b) <==> |s| == a + b && Closes(s, b - a)
  }

  lemma {:induction false} CompletionsExact(a: nat, b: nat, s: string)
    requires a <= b
    ensures ExactAt(a, b, s)
    decreases a + b
  {
    if b == 0 {
      assert Completions(a, b) == [""];
    } else {
      if s != "" && a > 0 {
        CompletionsExact(a - 1, b, s[1..]);
      }
      if s != "" && a < b {
        CompletionsExact(a, b - 1, s[1..]);
      }
      ExactStep(a, b, s);
    }
  }

  lemma ExactStep(a: nat, b: nat, s: string)
    requires a <= b && b > 0
    requires s != "" && a > 0 ==> ExactAt(a - 1, b, s[1..])
    requires s != "" && a < b ==> ExactAt(a, b - 1, s[1..])
    ensures ExactAt(a, b, s)
  {
    CompletionsHead(a, b, s);
    if s != "" && s[0] == '(' && a == 0 && |s| == b {
      TooDeep(s[1..], b + 1);
    }
  }

  lemma CompletionsHead(a: nat, b: nat, s: string)
    requires a <= b && b > 0
    ensures s in Completions(a, b) <==>
            s != "" && ((s[0] == '(' && a > 0 && s[1..] in Completions(a - 1, b))
                        || (s[0] == ')' && a < b && s[1..] in Completions(a, b - 1)))
  {
    if a > 0 {
      PrependMember('(', Completions(a - 1, b), s);
    }
    if a < b {
      PrependMember(')', Completions(a, b - 1), s);
    }
  }

  /** A string cannot come down from a depth greater than its length */
  lemma {:induction false} TooDeep(s: string, d: int)
    requires |s| < d
    ensures !Closes(s, d)
  {
    if s != "" {
      TooDeep(s[1..], d + 1);
      if |s[1..]| < d - 1 {
        TooDeep(s[1..], d - 1);
      }
    }
  }

  /** The result for n pairs holds every balanced string of that length and nothing else;
      a negative n gives none. */
  lemma GeneratedExactly(n: int, s: string)
    ensures s in Generated(n) <==> |s| == 2 * n && Balanced(s)
  {
    if n >= 0 {
      CompletionsExact(n, n, s);
      assert ExactAt(n, n, s);
      ClosesMeaning(s, 0);
      assert StaysUp(s, 0) <==> forall k :: 0 <= k <= |s| ==> Depth(s[..k]) >= 0;
    }
  }

  // ----- order -----

  /** Lexicographic order by character code: '(' comes before ')' */
  predicate LexLess(s: string, t: string) {
    t != "" && (s == "" || s[0] < t[0] || (s[0] == t[0] && LexLess(s[1..], t[1..])))
  }

  predicate LexIncreasing(ss: seq<string>) { forall i, j :: 0 <= i < j < |ss| ==> LexLess(ss[i], ss[j]) }

  predicate AllStartWith(c: char, ss: seq<string>) {
    forall i :: 0 <= i < |ss| ==> ss[i] != "" && ss[i][0] == c
  }

  lemma {:induction false} CompletionsIncreasing(a: nat, b: nat)
    requires a <= b
    ensures LexIncreasing(Completions(a, b))
    decreases a + b
  {
    if b > 0 {
      var opening: seq<string>, closing: seq<string> := [], [];
      if a > 0 {
        CompletionsIncreasing(a - 1, b);
        PrependIncreasing("(", Completions(a - 1, b));
        opening := Prepend("(", Completions(a - 1, b));
      }
      if a < b {
        CompletionsIncreasing(a, b - 1);
        PrependIncreasing(")", Completions(a, b - 1));
        closing := Prepend(")", Completions(a, b - 1));
      }
      OpeningFirst(opening, closing);
    }
  }

  lemma OpeningFirst(opening: seq<string>, closing: seq<string>)
    requires LexIncreasing(opening) && LexIncreasing(closing)
    requires AllStartWith('(', opening) && AllStartWith(')', closing)
    ensures LexIncreasing(opening + closing)
  {
    var all := opening + closing;
    forall i, j | 0 <= i < j < |all| ensures LexLess(all[i], all[j]) {
      if j < |opening| {
        assert all[i] == opening[i] && all[j] == opening[j];
      } else if i < |opening| {
        assert all[i] == opening[i] && all[j] == closing[j - |opening|];
      } else {
        assert all[i] == closing[i - |opening|] && all[j] == closing[j - |opening|];
      }
    }
  }

  lemma PrependIncreasing(prefix: string, ss: seq<string>)
    requires |prefix| == 1 && LexIncreasing(ss)
    ensures LexIncreasing(Prepend(prefix, ss)) && AllStartWith(prefix[0], Prepend(prefix, ss))
  {
    forall i, j | 0 <= i < j < |ss| ensures LexLess(prefix + ss[i], prefix + ss[j]) {
      assert (prefix + ss[i])[1..] == ss[i] && (prefix + ss[j])[1..] == ss[j];
    }
  }

  lemma {:induction false} LexIrreflexive(s: string)
    ensures !LexLess(s, s)
  {
    if s != "" {
      LexIrreflexive(s[1..]);
    }
  }

  /** The strings come in strictly increasing order, hence without duplicates */
  lemma GeneratedIncreasing(n: int)
    ensures LexIncreasing(Generated(n))
    ensures forall i, j :: 0 <= i < j < |Generated(n)| ==> Generated(n)[i] != Generated(n)[j]
  {
    if n >= 0 {
      CompletionsIncreasing(n, n);
      forall i, j | 0 <= i < j < |Generated(n)| ensures Generated(n)[i] != Generated(n)[j] {
        LexIrreflexive(Generated(n)[i]);
      }
    }
  }

  // ----- the count -----

  /** Binomial coefficients by Pascal's rule, 0 for a negative k */
  function Choose(m: nat, k: int): nat {
    if k < 0 then 0 else if k == 0 then 1 else if m == 0 then 0 else Choose(m - 1, k - 1) + Choose(m - 1, k)
  }

  lemma {:induction false} ChooseAbove(m: nat, k: int)
    requires k > m
    ensures Choose(m, k) == 0
  {
    if m > 0 {
      ChooseAbove(m - 1, k - 1);
      ChooseAbove(m - 1, k);
    }
  }

  lemma {:induction false} ChooseSymmetric(m: nat, k: int)
    ensures Choose(m, k) == Choose(m, m - k)
    decreases m
  {
    if k < 0 {
      ChooseAbove(m, m - k);
    } else if k > m {
      ChooseAbove(m, k);
    } else if m > 0 {
      ChooseSymmetric(m - 1, k - 1);
      ChooseSymmetric(m - 1, k);
      if k == m {
        ChooseAbove(m - 1, m);
      }
      if k == 0 {
        ChooseAbove(m - 1, m);
      }
    }
  }

  /** k C(m,k) == (m-k+1) C(m,k-1) */
  lemma {:induction false} Absorption(m: nat, k: int)
    requires k >= 1
    ensures k * Choose(m, k) == (m - k + 1) * Choose(m, k - 1)
  {
    if m == 0 {
      assert Choose(0, k) == 0 && (k > 1 ==> Choose(0, k - 1) == 0);
    } else {
      Absorption(m - 1, k);
      if k > 1 {
        Absorption(m - 1, k - 1);
      }
      AbsorptionStep(m, k, Choose(m - 1, k), Choose(m - 1, k - 1), Choose(m - 1, k - 2));
      assert k == 1 ==> Choose(m, k - 1) == Choose(m - 1, k - 2) + Choose(m - 1, k - 1);
    }
  }

  lemma AbsorptionStep(m: int, k: int, x: int, y: int, z: int)
    requires k * x == (m - k) * y && (k - 1) * y == (m - k + 1) * z
    ensures k * (y + x) == (m - k + 1) * (z + y)
  {
    calc {
      k * (y + x);
    ==
      (k - 1) * y + y + k * x;
    ==
      (m - k + 1) * z + y + (m - k) * y;
    ==
      (m - k + 1) * (z + y);
    }
  }

  /** With a opens and b closes to place there are C(a+b,a) - C(a+b,a-1) completions */
  lemma {:induction false} CompletionsCount(a: nat, b: nat)
    requires a <= b
    ensures |Completions(a, b)| == Choose(a + b, a) - Choose(a + b, a - 1)
    decreases a + b
  {
    if b > 0 {
      if a > 0 {
        CompletionsCount(a - 1, b);
      }
      if a < b {
        CompletionsCount(a, b - 1);
      } else {
        ChooseSymmetric(2 * a - 1, a);
      }
    }
  }

  /** The Catalan numbers */
  lemma GeneratedCount(n: nat)
    ensures (n + 1) * |Generated(n)| == Choose(2 * n, n)
  {
    CompletionsCount(n, n);
    if n > 0 {
      Absorption(2 * n, n);
      CatalanStep(n, Choose(2 * n, n), Choose(2 * n, n - 1));
    }
  }

  lemma CatalanStep(n: int, x: int, y: int)
    requires n * x == (n + 1) * y
    ensures (n + 1) * (x - y) == x
  {
    assert (n + 1) * (x - y) == n * x + x - (n + 1) * y;
  }
}
