/**
 * The second copy of those helpers: the same palindrome test, a
 * 0-indexed Fibonacci number and a vowel count, with the expectations of
 * its parametrised tests as lemmas.
 */
module TestFunctions {
  import opened Wrappers
  import opened Functions

  /** `fibonacci` (0-indexed): refuses n < 0, else the n-th number with F(0) = 0. */
  method Fibonacci(n: int) returns (r: Result<nat, string>)
    ensures n < 0 <==> r.Err?
    ensures r.Err? ==> r.error == "n must be a non-negative integer"
    ensures r.Ok? ==> r.value == Fib(n)
  {
    if n < 0 {
      return Err("n must be a non-negative integer");
    }
    var a: nat, b: nat := 0, 1;
    for k := 0 to n
      invariant a == Fib(k) && b == Fib(k + 1)
    {
      a, b := b, a + b;
    }
    return Ok(a);
  }

  const Vowels := "aeiouyąęóAEIOUYĄĘÓ"

  /** Membership in `Vowels`, one character at a time. */
  predicate IsVowel(c: char)
  {
    c == 'a' || c == 'e' || c == 'i' || c == 'o' || c == 'u' || c == 'y' || c == 'ą' || c == 'ę' || c == 'ó' ||
    c == 'A' || c == 'E' || c == 'I' || c == 'O' || c == 'U' || c == 'Y' || c == 'Ą' || c == 'Ę' || c == 'Ó'
  }

  lemma IsVowelIff(c: char)
    ensures IsVowel(c) <==> c in Vowels
  {
  }

  /** `count_vowels`: how many characters of `s` are in `Vowels` (see `IsVowelIff`). */
  function CountVowels(s: string): (n: nat)
    ensures n <= |s|
  {
    if s == [] then 0
    else CountVowels(s[..|s| - 1]) + (if IsVowel(s[|s| - 1]) then 1 else 0)
  }

  /** The count is 0 exactly when no character is a vowel, and |s| exactly when every one is. */
  lemma {:induction false} CountVowelsExtremes(s: string)
    ensures CountVowels(s) == 0 <==> forall i :: 0 <= i < |s| ==> !IsVowel(s[i])
    ensures CountVowels(s) == |s| <==> forall i :: 0 <= i < |s| ==> IsVowel(s[i])
  {
    if s != [] {
      CountVowelsExtremes(s[..|s| - 1]);
    }
  }

  /** The count is additive over concatenation. */
  lemma {:induction false} CountVowelsAppend(s: string, t: string)
    ensures CountVowels(s + t) == CountVowels(s) + CountVowels(t)
  {
    if t == [] {
      assert s + t == s;
    } else {
      var u := s + t;
      assert u[|u| - 1] == t[|t| - 1];
      assert u[..|u| - 1] == s + t[..|t| - 1];
      CountVowelsAppend(s, t[..|t| - 1]);
    }
  }

  /** "kajak" has only lower-case letters, so cleaning keeps it. */
  lemma CleanedKajak()
    ensures Cleaned("kajak") == "kajak"
  {
    var s := "kajak";
    assert s[..0] == "";
    assert s[..1][..0] == s[..0] && s[..1][0] == 'k';
    assert Cleaned(s[..1]) == "k";
    assert s[..2][..1] == s[..1] && s[..2][1] == 'a';
    assert Cleaned(s[..2]) == "ka";
    assert s[..3][..2] == s[..2] && s[..3][2] == 'j';
    assert Cleaned(s[..3]) == "kaj";
    assert s[..4][..3] == s[..3] && s[..4][3] == 'a';
    assert Cleaned(s[..4]) == "kaja";
    assert s[..5][..4] == s[..4] && s[..5][4] == 'k';
    assert Cleaned(s[..5]) == "kajak";
    assert s[..5] == s;
  }

  /** Palindrome test case: "kajak". */
  lemma PalindromeKajak()
    ensures IsPalindrome("kajak")
  {
    CleanedKajak();
    assert ReadsSameBothWays("kajak");
    ReverseFixedIff("kajak");
  }

  lemma CleanedKobylaWord1()
    ensures Cleaned("Kobyła") == "kobyła"
  {
    var s := "Kobyła";
    assert s[..0] == "";
    assert s[..1][..0] == s[..0] && s[..1][0] == 'K';
    assert Cleaned(s[..1]) == "k";
    assert s[..2][..1] == s[..1] && s[..2][1] == 'o';
    assert Cleaned(s[..2]) == "ko";
    assert s[..3][..2] == s[..2] && s[..3][2] == 'b';
    assert Cleaned(s[..3]) == "kob";
    assert s[..4][..3] == s[..3] && s[..4][3] == 'y';
    assert Cleaned(s[..4]) == "koby";
    assert s[..5][..4] == s[..4] && s[..5][4] == 'ł';
    assert Cleaned(s[..5]) == "kobył";
    assert s[..6][..5] == s[..5] && s[..6][5] == 'a';
    assert Cleaned(s[..6]) == "kobyła";
    assert s[..6] == s;
  }

  lemma CleanedKobylaWord2()
    ensures Cleaned(" ma") == "ma"
  {
    var s := " ma";
    assert s[..0] == "";
    assert s[..1][..0] == s[..0] && s[..1][0] == ' ';
    assert Cleaned(s[..1]) == "";
    assert s[..2][..1] == s[..1] && s[..2][1] == 'm';
    assert Cleaned(s[..2]) == "m";
    assert s[..3][..2] == s[..2] && s[..3][2] == 'a';
    assert Cleaned(s[..3]) == "ma";
    assert s[..3] == s;
  }

  lemma CleanedKobylaWord3()
    ensures Cleaned(" mały") == "mały"
  {
    var s := " mały";
    assert s[..0] == "";
    assert s[..1][..0] == s[..0] && s[..1][0] == ' ';
    assert Cleaned(s[..1]) == "";
    assert s[..2][..1] == s[..1] && s[..2][1] == 'm';
    assert Cleaned(s[..2]) == "m";
    assert s[..3][..2] == s[..2] && s[..3][2] == 'a';
    assert Cleaned(s[..3]) == "ma";
    assert s[..4][..3] == s[..3] && s[..4][3] == 'ł';
    assert Cleaned(s[..4]) == "mał";
    assert s[..5][..4] == s[..4] && s[..5][4] == 'y';
    assert Cleaned(s[..5]) == "mały";
    assert s[..5] == s;
  }

  lemma CleanedKobylaWord4()
    ensures Cleaned(" bok") == "bok"
  {
    var s := " bok";
    assert s[..0] == "";
    assert s[..1][..0] == s[..0] && s[..1][0] == ' ';
    assert Cleaned(s[..1]) == "";
    assert s[..2][..1] == s[..1] && s[..2][1] == 'b';
    assert Cleaned(s[..2]) == "b";
    assert s[..3][..2] == s[..2] && s[..3][2] == 'o';
    assert Cleaned(s[..3]) == "bo";
    assert s[..4][..3] == s[..3] && s[..4][3] == 'k';
    assert Cleaned(s[..4]) == "bok";
    assert s[..4] == s;
  }

  /** The cleaned form of the second palindrome test case: spaces dropped, "K" lowered. */
  lemma CleanedKobyla()
    ensures Cleaned("Kobyła ma mały bok") == "kobyłamamałybok"
  {
    CleanedKobylaWord1();
    CleanedKobylaWord2();
    CleanedKobylaWord3();
    CleanedKobylaWord4();
    CleanedAppend("Kobyła", " ma");
    CleanedAppend("Kobyła ma", " mały");
    CleanedAppend("Kobyła ma mały", " bok");
    assert "Kobyła" + " ma" == "Kobyła ma";
    assert "Kobyła ma" + " mały" == "Kobyła ma mały";
    assert "Kobyła ma mały" + " bok" == "Kobyła ma mały bok";
  }

  /** Palindrome test case: "Kobyła ma mały bok", ignoring spaces and case. */
  lemma PalindromeKobyla()
    ensures IsPalindrome("Kobyła ma mały bok")
  {
    CleanedKobyla();
    assert ReadsSameBothWays("kobyłamamałybok");
    ReverseFixedIff("kobyłamamałybok");
  }

  /** Palindrome test case: "python" is not one. */
  lemma PalindromePython()
    ensures !IsPalindrome("python")
  {
    var s := "python";
    assert s[..0] == "";
    assert s[..1][..0] == s[..0] && s[..1][0] == 'p';
    assert Cleaned(s[..1]) == "p";
    assert s[..2][..1] == s[..1] && s[..2][1] == 'y';
    assert Cleaned(s[..2]) == "py";
    assert s[..3][..2] == s[..2] && s[..3][2] == 't';
    assert Cleaned(s[..3]) == "pyt";
    assert s[..4][..3] == s[..3] && s[..4][3] == 'h';
    assert Cleaned(s[..4]) == "pyth";
    assert s[..5][..4] == s[..4] && s[..5][4] == 'o';
    assert Cleaned(s[..5]) == "pytho";
    assert s[..6][..5] == s[..5] && s[..6][5] == 'n';
    assert Cleaned(s[..6]) == "python";
    assert s[..6] == s;
    assert "python"[0] != "python"[5];
    ReverseFixedIff("python");
  }

  /** Palindrome test cases: the empty string and "A". */
  lemma PalindromeTrivial()
    ensures IsPalindrome("") && IsPalindrome("A")
  {
    assert "A"[..0] == "";
    assert Cleaned("A") == "a";
  }

  /** The Fibonacci cases of the tests: F(0), F(1), F(5) and F(10). */
  lemma FibonacciExamples()
    ensures Fib(0) == 0 && Fib(1) == 1 && Fib(5) == 5 && Fib(10) == 55
  {
  }

  lemma VowelsPython()
    ensures CountVowels("Python") == 2
  {
    var s := "Python";
    assert s[..0] == "";
    assert s[..1][..0] == s[..0] && s[..1][0] == 'P';
    assert CountVowels(s[..1]) == 0;
    assert s[..2][..1] == s[..1] && s[..2][1] == 'y';
    assert CountVowels(s[..2]) == 1;
    assert s[..3][..2] == s[..2] && s[..3][2] == 't';
    assert CountVowels(s[..3]) == 1;
    assert s[..4][..3] == s[..3] && s[..4][3] == 'h';
    assert CountVowels(s[..4]) == 1;
    assert s[..5][..4] == s[..4] && s[..5][4] == 'o';
    assert CountVowels(s[..5]) == 2;
    assert s[..6][..5] == s[..5] && s[..6][5] == 'n';
    assert CountVowels(s[..6]) == 2;
    assert s[..6] == s;
  }

  lemma VowelsUpper()
    ensures CountVowels("AEIOUY") == 6
  {
    var s := "AEIOUY";
    assert s[..0] == "";
    assert s[..1][..0] == s[..0] && s[..1][0] == 'A';
    assert CountVowels(s[..1]) == 1;
    assert s[..2][..1] == s[..1] && s[..2][1] == 'E';
    assert CountVowels(s[..2]) == 2;
    assert s[..3][..2] == s[..2] && s[..3][2] == 'I';
    assert CountVowels(s[..3]) == 3;
    assert s[..4][..3] == s[..3] && s[..4][3] == 'O';
    assert CountVowels(s[..4]) == 4;
    assert s[..5][..4] == s[..4] && s[..5][4] == 'U';
    assert CountVowels(s[..5]) == 5;
    assert s[..6][..5] == s[..5] && s[..6][5] == 'Y';
    assert CountVowels(s[..6]) == 6;
    assert s[..6] == s;
  }

  lemma VowelsNone()
    ensures CountVowels("bcd") == 0 && CountVowels("") == 0
  {
    var s := "bcd";
    assert s[..0] == "";
    assert s[..1][..0] == s[..0] && s[..1][0] == 'b';
    assert CountVowels(s[..1]) == 0;
    assert s[..2][..1] == s[..1] && s[..2][1] == 'c';
    assert CountVowels(s[..2]) == 0;
    assert s[..3][..2] == s[..2] && s[..3][2] == 'd';
    assert CountVowels(s[..3]) == 0;
    assert s[..3] == s;
  }

  lemma VowelsPolishHead()
    ensures CountVowels("Próba") == 2
  {
    var s := "Próba";
    assert s[..0] == "";
    assert s[..1][..0] == s[..0] && s[..1][0] == 'P';
    assert CountVowels(s[..1]) == 0;
    assert s[..2][..1] == s[..1] && s[..2][1] == 'r';
    assert CountVowels(s[..2]) == 0;
    assert s[..3][..2] == s[..2] && s[..3][2] == 'ó';
    assert CountVowels(s[..3]) == 1;
    assert s[..4][..3] == s[..3] && s[..4][3] == 'b';
    assert CountVowels(s[..4]) == 1;
    assert s[..5][..4] == s[..4] && s[..5][4] == 'a';
    assert CountVowels(s[..5]) == 2;
    assert s[..5] == s;
  }

  lemma VowelsPolishTail()
    ensures CountVowels(" żółwia") == 3
  {
    var s := " żółwia";
    assert s[..0] == "";
    assert s[..1][..0] == s[..0] && s[..1][0] == ' ';
    assert CountVowels(s[..1]) == 0;
    assert s[..2][..1] == s[..1] && s[..2][1] == 'ż';
    assert CountVowels(s[..2]) == 0;
    assert s[..3][..2] == s[..2] && s[..3][2] == 'ó';
    assert CountVowels(s[..3]) == 1;
    assert s[..4][..3] == s[..3] && s[..4][3] == 'ł';
    assert CountVowels(s[..4]) == 1;
    assert s[..5][..4] == s[..4] && s[..5][4] == 'w';
    assert CountVowels(s[..5]) == 1;
    assert s[..6][..5] == s[..5] && s[..6][5] == 'i';
    assert CountVowels(s[..6]) == 2;
    assert s[..7][..6] == s[..6] && s[..7][6] == 'a';
    assert CountVowels(s[..7]) == 3;
    assert s[..7] == s;
  }

  lemma VowelsPolish()
    ensures CountVowels("Próba żółwia") == 5
  {
    VowelsPolishHead();
    VowelsPolishTail();
    CountVowelsAppend("Próba", " żółwia");
    assert "Próba" + " żółwia" == "Próba żółwia";
  }
}
