/**
 * The small helpers the repository's unit tests exercise: a palindrome test over the lowercased
 * alphanumeric characters of a string, and a 1-indexed Fibonacci number.
 */
module Functions {
  import opened Wrappers

  /** `str.isalnum` over ASCII letters and digits and the Polish letters. */
  predicate IsAlnum(c: char)
  {
    ('a' <= c <= 'z') || ('A' <= c <= 'Z') || ('0' <= c <= '9') ||
    c == 'ą' || c == 'ć' || c == 'ę' || c == 'ł' || c == 'ń' || c == 'ó' || c == 'ś' || c == 'ź' || c == 'ż' ||
    c == 'Ą' || c == 'Ć' || c == 'Ę' || c == 'Ł' || c == 'Ń' || c == 'Ó' || c == 'Ś' || c == 'Ź' || c == 'Ż'
  }

  /** `str.lower` for one character over the same alphabet; every other character is unchanged. */
  function Lower(c: char): char
  {
    if 'A' <= c <= 'Z' then (c as int + 32) as char
    else match c
      case 'Ą' => 'ą'
      case 'Ć' => 'ć'
      case 'Ę' => 'ę'
      case 'Ł' => 'ł'
      case 'Ń' => 'ń'
      case 'Ó' => 'ó'
      case 'Ś' => 'ś'
      case 'Ź' => 'ź'
      case 'Ż' => 'ż'
      case _ => c
  }

  /** Lowering keeps letters and digits letters and digits, maps "A".."Z" onto "a".."z" and fixes lower case and digits. */
  lemma LowerFacts(c: char)
    ensures IsAlnum(c) ==> IsAlnum(Lower(c))
    ensures 'A' <= c <= 'Z' ==> 'a' <= Lower(c) <= 'z'
    ensures ('a' <= c <= 'z') || ('0' <= c <= '9') ==> Lower(c) == c
  {
  }

  /** `''.join(c.lower() for c in s if c.isalnum())`. */
  function Cleaned(s: string): (cleaned: string)
    ensures |cleaned| <= |s|
  {
    if s == [] then ""
    else
      var c := s[|s| - 1];
      Cleaned(s[..|s| - 1]) + (if IsAlnum(c) then [Lower(c)] else "")
  }

  /** Every character that survives cleaning is a letter or a digit. */
  lemma {:induction false} CleanedIsAlnum(s: string)
    ensures forall i :: 0 <= i < |Cleaned(s)| ==> IsAlnum(Cleaned(s)[i])
  {
    if s != [] {
      CleanedIsAlnum(s[..|s| - 1]);
      LowerFacts(s[|s| - 1]);
    }
  }

  /** `s[::-1]`. */
  function Reverse(s: string): (r: string)
    ensures |r| == |s|
    ensures forall i :: 0 <= i < |s| ==> r[i] == s[|s| - 1 - i]
  {
    if s == [] then "" else [s[|s| - 1]] + Reverse(s[..|s| - 1])
  }

  /** `is_palindrome`: the cleaned string equals its own reverse. */
  predicate IsPalindrome(s: string)
  {
    Cleaned(s) == Reverse(Cleaned(s))
  }

  /** The index-wise definition of a palindrome: the i-th character from each end agree. */
  predicate ReadsSameBothWays(c: string)
  {
    forall i :: 0 <= i < |c| ==> c[i] == c[|c| - 1 - i]
  }

  /** A string equals its reverse exactly when it reads the same from both ends. */
  lemma ReverseFixedIff(c: string)
    ensures c == Reverse(c) <==> ReadsSameBothWays(c)
  {
    if ReadsSameBothWays(c) {
      assert forall i :: 0 <= i < |c| ==> Reverse(c)[i] == c[i];
    }
  }

  /** `is_palindrome` holds exactly when the cleaned string reads the same from both ends. */
  lemma PalindromeIndexwise(s: string)
    ensures IsPalindrome(s) <==> ReadsSameBothWays(Cleaned(s))
  {
    ReverseFixedIff(Cleaned(s));
  }

  lemma {:induction false} CleanedAppend(s: string, t: string)
    ensures Cleaned(s + t) == Cleaned(s) + Cleaned(t)
  {
    if t == [] {
      assert s + t == s;
    } else {
      var u := s + t;
      assert u[|u| - 1] == t[|t| - 1];
      assert u[..|u| - 1] == s + t[..|t| - 1];
      CleanedAppend(s, t[..|t| - 1]);
    }
  }

  /** Cleaning commutes with reversal. */
  lemma {:induction false} CleanedReverse(s: string)
    ensures Cleaned(Reverse(s)) == Reverse(Cleaned(s))
  {
    if s != [] {
      var init := s[..|s| - 1];
      var c := s[|s| - 1];
      assert s == init + [c];
      ReverseAppend(init, [c]);
      assert Reverse([c]) == [c];
      CleanedAppend([c], Reverse(init));
      CleanedReverse(init);
      assert Cleaned([c]) == if IsAlnum(c) then [Lower(c)] else "" by {
        assert [c][..0] == "";
      }
      ReverseAppend(Cleaned(init), Cleaned([c]));
      assert Reverse(Cleaned([c])) == Cleaned([c]);
    }
  }

  lemma {:induction false} ReverseAppend(s: string, t: string)
    ensures Reverse(s + t) == Reverse(t) + Reverse(s)
  {
    assert forall i :: 0 <= i < |s + t| ==> Reverse(s + t)[i] == (Reverse(t) + Reverse(s))[i];
  }

  lemma {:induction false} ReverseReverse(s: string)
    ensures Reverse(Reverse(s)) == s
  {
    assert forall i :: 0 <= i < |s| ==> Reverse(Reverse(s))[i] == s[i];
  }

  /** A string is a palindrome exactly when its reverse is. */
  lemma PalindromeReverse(s: string)
    ensures IsPalindrome(Reverse(s)) == IsPalindrome(s)
  {
    CleanedReverse(s);
    ReverseReverse(Cleaned(s));
  }

  /** Characters other than letters and digits do not change the answer. */
  lemma PalindromeIgnoresPunctuation(s: string, t: string, c: char)
    requires !IsAlnum(c)
    ensures IsPalindrome(s + [c] + t) == IsPalindrome(s + t)
  {
    CleanedAppend(s + [c], t);
    CleanedAppend(s, [c]);
    CleanedAppend(s, t);
    assert Cleaned([c]) == "" by { assert [c][..0] == ""; }
    assert Cleaned(s + [c]) == Cleaned(s);
    assert Cleaned(s + [c] + t) == Cleaned(s + t);
  }

  /** The Fibonacci numbers with F(0) = 0 and F(1) = 1. */
  function Fib(n: nat): nat
  {
    if n < 2 then n else Fib(n - 1) + Fib(n - 2)
  }

  /** `fibonacci` (1-indexed): refuses n <= 0, else the n-th number, with F(1) = F(2) = 1. */
  method Fibonacci(n: int) returns (r: Result<nat, string>)
    ensures n <= 0 <==> r.Err?
    ensures r.Err? ==> r.error == "n must be a positive integer"
    ensures r.Ok? ==> r.value == Fib(n)
  {
    if n <= 0 {
      return Err("n must be a positive integer");
    }
    var a: nat, b: nat := 0, 1;
    for k := 0 to n - 1
      invariant a == Fib(k) && b == Fib(k + 1)
    {
      a, b := b, a + b;
    }
    return Ok(b);
  }

  /**
   * What `fibonacci` returns for n >= 1 is positive and never smaller than
   * for a smaller n: F(1) = F(2) = 1 and the sequence grows from there.
   */
  lemma {:induction false} FibGrows(m: nat, n: nat)
    requires 1 <= m <= n
    ensures 1 <= Fib(m) <= Fib(n)
    decreases n
  {
    if n >= 3 {
      FibGrows(1, n - 2);
      FibGrows(1, n - 1);
    }
    if n > m {
      FibGrows(m, n - 1);
    }
  }
}
