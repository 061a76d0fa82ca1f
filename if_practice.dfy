/** `fibonacci` and `christmas_song` (`if_practice/src/main.rs`). */
module IfPractice {
  import opened Common

  // ---------------------------------------------------------------------------
  // Fibonacci

  /** The Fibonacci numbers over the naturals. */
  function Fib(n: nat): nat {
    if n == 0 then 0 else if n == 1 then 1 else Fib(n - 1) + Fib(n - 2)
  }

  /** The largest argument whose Fibonacci number fits in a u32. */
  const MAX_FIB_ARG: u32 := 47

  /** `fibonacci` on u32. Its additions do not overflow exactly when n <= 47,
      so the model carries that precondition. */
  function Fibonacci(n: u32): (r: u32)
    requires n <= MAX_FIB_ARG
    ensures r as int == Fib(n as nat)
  {
    if n == 0 then 0
    else if n == 1 then 1
    else
      FibFitsU32(n as nat);
      Fibonacci(n - 1) + Fibonacci(n - 2)
  }

  /** The iteration `a, b := b, a + b`, k times; an independent definition
      to compare `fibonacci` with. */
  function FibIter(k: nat, a: nat, b: nat): nat {
    if k == 0 then a else FibIter(k - 1, b, a + b)
  }

  lemma {:induction false} FibIterIsFib(k: nat, m: nat)
    ensures FibIter(k, Fib(m), Fib(m + 1)) == Fib(m + k)
  {
    if k > 0 {
      FibIterIsFib(k - 1, m + 1);
    }
  }

  lemma {:induction false} FibMonotone(m: nat, n: nat)
    requires m <= n
    ensures Fib(m) <= Fib(n)
    decreases n - m
  {
    if m < n {
      FibMonotone(m, n - 1);
      assert Fib(n - 1) <= Fib(n);
    }
  }

  /** The 47th and 48th Fibonacci numbers, by iterating in steps of eight. */
  lemma FibIterValues()
    ensures FibIter(47, 0, 1) == 2971215073
    ensures FibIter(48, 0, 1) == 4807526976
  {
    assert FibIter(47, 0, 1) == FibIter(39, 21, 34);
    assert FibIter(39, 21, 34) == FibIter(31, 987, 1597);
    assert FibIter(31, 987, 1597) == FibIter(23, 46368, 75025);
    assert FibIter(23, 46368, 75025) == FibIter(15, 2178309, 3524578);
    assert FibIter(15, 2178309, 3524578) == FibIter(7, 102334155, 165580141);
    assert FibIter(7, 102334155, 165580141) == FibIter(0, 2971215073, 4807526976);
    assert FibIter(48, 0, 1) == FibIter(40, 21, 34);
    assert FibIter(40, 21, 34) == FibIter(32, 987, 1597);
    assert FibIter(32, 987, 1597) == FibIter(24, 46368, 75025);
    assert FibIter(24, 46368, 75025) == FibIter(16, 2178309, 3524578);
    assert FibIter(16, 2178309, 3524578) == FibIter(8, 102334155, 165580141);
    assert FibIter(8, 102334155, 165580141) == FibIter(0, 4807526976, 7778742049);
  }

  lemma FibAt47(n: nat)
    requires n == MAX_FIB_ARG as nat
    ensures Fib(n) == 2971215073 && Fib(n + 1) == 4807526976
  {
    FibIterValues();
    FibIterIsFib(n, 0);
    FibIterIsFib(n + 1, 0);
  }

  /** Every Fibonacci number up to the 47th fits in a u32. */
  lemma FibFitsU32(n: nat)
    requires n <= MAX_FIB_ARG as nat
    ensures Fib(n) < 0x1_0000_0000
  {
    FibMonotone(n, MAX_FIB_ARG as nat);
    FibAt47(MAX_FIB_ARG as nat);
  }

  /** The 48th does not: `fibonacci(48)` overflows. */
  lemma Fib48Overflows()
    ensures Fib(MAX_FIB_ARG as nat + 1) >= 0x1_0000_0000
  {
    FibAt47(MAX_FIB_ARG as nat);
  }

  /** The value `main` prints. */
  lemma FibonacciOfTen(n: u32)
    requires n == 10
    ensures Fibonacci(n) == 55
  {
    FibIterIsFib(10, 0);
    assert FibIter(10, 0, 1) == 55;
  }

  // ---------------------------------------------------------------------------
  // The Twelve Days of Christmas

  const DAYS: seq<string> := ["first", "second", "third", "fourth", "fifth", "sixth",
    "seventh", "eighth", "ninth", "tenth", "eleventh", "twelfth"]

  const GIFTS: seq<string> := [
    "a partridge in a pear tree",
    "two turtle doves",
    "three French hens",
    "four calling birds",
    "five golden rings",
    "six geese a-laying",
    "seven swans a-swimming",
    "eight maids a-milking",
    "nine ladies dancing",
    "ten lords a-leaping",
    "eleven pipers piping",
    "twelve drummers drumming"]

  const VERSES: nat := 12

  /** A printed line: a verse's heading, a gift (with or without "And "
      before it), or the empty line that ends a verse. */
  datatype Line = Heading(day: nat) | Gift(gift: nat, and: bool) | Blank

  /** The text of a line. */
  function Render(line: Line): string
    requires line.Heading? ==> line.day < |DAYS|
    requires line.Gift? ==> line.gift < |GIFTS|
  {
    match line
    case Heading(i) => "On the " + DAYS[i] + " day of Christmas my true love gave to me"
    case Gift(j, and) => (if and then "And " else "") + GIFTS[j]
    case Blank => ""
  }

  /** The line printed for gift j in verse i. */
  function GiftLine(i: nat, j: nat): Line {
    Gift(j, j == 0 && i != 0)
  }

  /** The gift lines of verse i from gift i down to gift lo. */
  function Gifts(i: nat, lo: nat): seq<Line>
    requires lo <= i + 1
    decreases i + 1 - lo
  {
    if lo == i + 1 then [] else Gifts(i, lo + 1) + [GiftLine(i, lo)]
  }

  function Verse(i: nat): seq<Line> {
    [Heading(i)] + Gifts(i, 0) + [Blank]
  }

  /** The first n verses. */
  function Song(n: nat): seq<Line> {
    if n == 0 then [] else Song(n - 1) + Verse(n - 1)
  }

  /** `christmas_song`: the lines it prints, in order. */
  method ChristmasSong() returns (lines: seq<Line>)
    ensures lines == Song(VERSES)
  {
    lines := [];
    for i := 0 to VERSES
      invariant lines == Song(i)
    {
      lines := lines + [Heading(i)];
      var j := i + 1;
      while j > 0
        invariant 0 <= j <= i + 1
        invariant lines == Song(i) + [Heading(i)] + Gifts(i, j)
      {
        j := j - 1;
        var and := j == 0 && i != 0;
        lines := lines + [Gift(j, and)];
      }
      lines := lines + [Blank];
    }
  }

  // Properties of the song

  /** Gift line k of verse i is gift i - k; only gift 0 after verse 0 has "And ". */
  lemma {:induction false} GiftsAt(i: nat, lo: nat, k: nat)
    requires lo <= i + 1 && k < i + 1 - lo
    ensures |Gifts(i, lo)| == i + 1 - lo
    ensures Gifts(i, lo)[k] == Gift(i - k, i - k == 0 && i != 0)
    decreases i + 1 - lo
  {
    if k < i - lo {
      GiftsAt(i, lo + 1, k);
    } else {
      GiftsLength(i, lo + 1);
    }
  }

  lemma {:induction false} GiftsLength(i: nat, lo: nat)
    requires lo <= i + 1
    ensures |Gifts(i, lo)| == i + 1 - lo
    decreases i + 1 - lo
  {
    if lo < i + 1 {
      GiftsLength(i, lo + 1);
    }
  }

  /** Verse i is its heading, gifts i, i-1, ..., 0 and a blank line; the
      "And " prefix stands exactly before gift 0 in verses after the first. */
  lemma VerseShape(i: nat)
    ensures |Verse(i)| == i + 3
    ensures Verse(i)[0] == Heading(i) && Verse(i)[i + 2] == Blank
    ensures forall k :: 1 <= k <= i + 1 ==> Verse(i)[k].Gift? && Verse(i)[k].gift == i + 1 - k
    ensures forall k :: 1 <= k <= i + 1 ==> (Verse(i)[k].and <==> k == i + 1 && i >= 1)
  {
    GiftsLength(i, 0);
    forall k | 1 <= k <= i + 1
      ensures Verse(i)[k] == Gift(i + 1 - k, i + 1 - k == 0 && i != 0)
    {
      GiftsAt(i, 0, k - 1);
    }
  }

  /** The number of gift lines among some lines. */
  function GiftCount(lines: seq<Line>): nat {
    if lines == [] then 0
    else GiftCount(lines[..|lines| - 1]) + (if lines[|lines| - 1].Gift? then 1 else 0)
  }

  /** The number of headings among some lines. */
  function HeadingCount(lines: seq<Line>): nat {
    if lines == [] then 0
    else HeadingCount(lines[..|lines| - 1]) + (if lines[|lines| - 1].Heading? then 1 else 0)
  }

  lemma {:induction false} CountsAppend(a: seq<Line>, b: seq<Line>)
    ensures GiftCount(a + b) == GiftCount(a) + GiftCount(b)
    ensures HeadingCount(a + b) == HeadingCount(a) + HeadingCount(b)
    decreases |b|
  {
    if b == [] {
      assert a + b == a;
    } else {
      assert (a + b)[..|a + b| - 1] == a + b[..|b| - 1];
      CountsAppend(a, b[..|b| - 1]);
    }
  }

  lemma {:induction false} GiftsCount(i: nat, lo: nat)
    requires lo <= i + 1
    ensures GiftCount(Gifts(i, lo)) == i + 1 - lo && HeadingCount(Gifts(i, lo)) == 0
    decreases i + 1 - lo
  {
    if lo < i + 1 {
      GiftsCount(i, lo + 1);
      CountsAppend(Gifts(i, lo + 1), [GiftLine(i, lo)]);
    }
  }

  lemma VerseCounts(i: nat)
    ensures GiftCount(Verse(i)) == i + 1 && HeadingCount(Verse(i)) == 1
  {
    GiftsCount(i, 0);
    CountsAppend([Heading(i)], Gifts(i, 0));
    CountsAppend([Heading(i)] + Gifts(i, 0), [Blank]);
  }

  /** n verses have n headings and 1 + 2 + ... + n gift lines, so twice
      the gift count is n(n + 1). */
  lemma {:induction false} SongCounts(n: nat)
    ensures HeadingCount(Song(n)) == n
    ensures 2 * GiftCount(Song(n)) == n * (n + 1)
  {
    if n > 0 {
      SongCounts(n - 1);
      VerseCounts(n - 1);
      CountsAppend(Song(n - 1), Verse(n - 1));
      assert (n - 1) * n + 2 * n == n * (n + 1);
    }
  }

  /** The song has 12 verses and 78 gift lines. */
  lemma TwelveVerses(n: nat)
    requires n == VERSES
    ensures HeadingCount(Song(n)) == 12
    ensures GiftCount(Song(n)) == 78
  {
    SongCounts(n);
    TriangleOfTwelve(GiftCount(Song(n)), n);
  }

  lemma TriangleOfTwelve(count: nat, n: nat)
    requires n == VERSES && 2 * count == n * (n + 1)
    ensures count == 78
  {
  }

  /** A gift line starts with "And " exactly when it carries the prefix: no
      gift's own text starts that way. */
  lemma RenderedAnd(j: nat, and: bool)
    requires j < |GIFTS|
    ensures var text := Render(Gift(j, and));
            |text| >= 4 && (text[..4] == "And " <==> and)
  {
    var text := Render(Gift(j, and));
    assert GIFTS[j][0] != 'A' && |GIFTS[j]| >= 4;
    if and {
      assert text == "And " + GIFTS[j];
      assert text[..4] == "And ";
    } else {
      assert text[0] == GIFTS[j][0];
    }
  }
}
