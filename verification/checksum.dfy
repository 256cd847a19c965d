/**
 * The modulo-10 checksum that ends each TLE line: every digit adds its value,
 * every minus sign adds one, every other character adds nothing.
 */
module Checksum {
  import opened Decimal

  function CharWeight(c: char): (w: nat)
    ensures w <= 9
  {
    if IsDigit(c) then DigitValue(c) else if c == '-' then 1 else 0
  }

  function WeightSum(s: string): nat
  {
    if s == [] then 0 else CharWeight(s[0]) + WeightSum(s[1..])
  }

  /** compute_checksum(line). */
  function ComputeChecksum(s: string): (d: nat)
    ensures d <= 9
  {
    WeightSum(s) % 10
  }

  /** str(compute_checksum(line)): always exactly one digit. */
  function ChecksumChar(s: string): (c: char)
    ensures IsDigit(c) && DigitValue(c) == ComputeChecksum(s)
  {
    DigitChar(ComputeChecksum(s))
  }

  lemma {:induction false} WeightSumAppend(a: string, b: string)
    ensures WeightSum(a + b) == WeightSum(a) + WeightSum(b)
  {
    if a == [] {
      assert a + b == b;
    } else {
      assert (a + b)[1..] == a[1..] + b;
      WeightSumAppend(a[1..], b);
    }
  }

  lemma {:induction false} WeightSumBound(s: string)
    ensures WeightSum(s) <= 9 * |s|
  {
    if s != [] {
      WeightSumBound(s[1..]);
    }
  }

  /** The checksum of a line is determined by the checksums of its parts. */
  lemma ChecksumAppend(a: string, b: string)
    ensures ComputeChecksum(a + b) == (ComputeChecksum(a) + ComputeChecksum(b)) % 10
  {
    WeightSumAppend(a, b);
    ModSum(WeightSum(a), WeightSum(b));
  }

  lemma ModSum(x: nat, y: nat)
    ensures (x + y) % 10 == (x % 10 + y % 10) % 10
  {
    var qx, qy := x / 10, y / 10;
    assert x + y == 10 * (qx + qy) + (x % 10 + y % 10);
  }

  lemma {:induction false} WeightSumAround(a: string, c: char, b: string)
    ensures WeightSum(a + [c] + b) == WeightSum(a) + CharWeight(c) + WeightSum(b)
  {
    WeightSumAppend(a + [c], b);
    WeightSumAppend(a, [c]);
  }

  /** Changing any one digit of a line changes its checksum. */
  lemma ChecksumDetectsDigitChange(a: string, c1: char, c2: char, b: string)
    requires IsDigit(c1) && IsDigit(c2) && c1 != c2
    ensures ComputeChecksum(a + [c1] + b) != ComputeChecksum(a + [c2] + b)
  {
    WeightSumAround(a, c1, b);
    WeightSumAround(a, c2, b);
    assert DigitValue(c1) != DigitValue(c2) by {
      assert c1 == DigitChar(DigitValue(c1)) && c2 == DigitChar(DigitValue(c2));
    }
  }

  /** Replacing a minus sign by a plus sign or a space changes the checksum too. */
  lemma ChecksumDetectsSignChange(a: string, c: char, b: string)
    requires c == '+' || c == ' '
    ensures ComputeChecksum(a + ['-'] + b) != ComputeChecksum(a + [c] + b)
  {
    WeightSumAround(a, '-', b);
    WeightSumAround(a, c, b);
  }

  /** A sum cannot see order: swapping two neighbouring characters leaves the checksum alone. */
  lemma ChecksumMissesSwap(a: string, x: char, y: char, b: string)
    ensures ComputeChecksum(a + [x, y] + b) == ComputeChecksum(a + [y, x] + b)
  {
    WeightSumAppend(a + [x, y], b);
    WeightSumAppend(a + [y, x], b);
    WeightSumAppend(a, [x, y]);
    WeightSumAppend(a, [y, x]);
    assert [x, y][1..] == [y] && [y, x][1..] == [x];
  }

  // ---------------------------------------------------------------------------
  // The two test lines, checked over their first 68 characters. Each line is
  // written in five-character pieces so that their weights can be added up
  // piece by piece.

  lemma Line1Piece0()
    ensures WeightSum("1 255") == 13
  {
  }

  lemma Line1Piece1()
    ensures WeightSum("44U 9") == 17
  {
  }

  lemma Line1Piece2()
    ensures WeightSum("8067A") == 21
  {
  }

  lemma Line1Piece3()
    ensures WeightSum("   04") == 4
  {
  }

  lemma Line1Piece4()
    ensures WeightSum("236.5") == 16
  {
  }

  lemma Line1Piece5()
    ensures WeightSum("60313") == 13
  {
  }

  lemma Line1Piece6()
    ensures WeightSum("92  .") == 11
  {
  }

  lemma Line1Piece7()
    ensures WeightSum("00020") == 2
  {
  }

  lemma Line1Piece8()
    ensures WeightSum("137  ") == 11
  {
  }

  lemma Line1Piece9()
    ensures WeightSum("00000") == 0
  {
  }

  lemma Line1Piece10()
    ensures WeightSum("-0  1") == 2
  {
  }

  lemma Line1Piece11()
    ensures WeightSum("6538-") == 23
  {
  }

  lemma Line1Piece12()
    ensures WeightSum("3 0  ") == 3
  {
  }

  lemma Line1Piece13()
    ensures WeightSum("999") == 27
  {
  }

  /** The weights of the first 68 characters of test line 1 add up to 163. */
  lemma TestLine1Sum()
    ensures WeightSum(
      "1 255" + "44U 9" + "8067A" + "   04" + "236.5" +
      "60313" + "92  ." + "00020" + "137  " + "00000" +
      "-0  1" + "6538-" + "3 0  " + "999") == 163
  {
    Line1Piece0();
    Line1Piece1();
    Line1Piece2();
    Line1Piece3();
    Line1Piece4();
    Line1Piece5();
    Line1Piece6();
    Line1Piece7();
    Line1Piece8();
    Line1Piece9();
    Line1Piece10();
    Line1Piece11();
    Line1Piece12();
    Line1Piece13();
    WeightSumAppend("1 255", "44U 9");
    WeightSumAppend("1 255" + "44U 9", "8067A");
    WeightSumAppend("1 255" + "44U 9" + "8067A", "   04");
    WeightSumAppend("1 255" + "44U 9" + "8067A" + "   04", "236.5");
    WeightSumAppend("1 255" + "44U 9" + "8067A" + "   04" + "236.5", "60313");
    WeightSumAppend("1 255" + "44U 9" + "8067A" + "   04" + "236.5" + "60313", "92  .");
    WeightSumAppend("1 255" + "44U 9" + "8067A" + "   04" + "236.5" + "60313" + "92  .", "00020");
    WeightSumAppend("1 255" + "44U 9" + "8067A" + "   04" + "236.5" + "60313" + "92  ." + "00020", "137  ");
    WeightSumAppend("1 255" + "44U 9" + "8067A" + "   04" + "236.5" + "60313" + "92  ." + "00020" + "137  ", "00000");
    WeightSumAppend("1 255" + "44U 9" + "8067A" + "   04" + "236.5" + "60313" + "92  ." + "00020" + "137  " + "00000", "-0  1");
    WeightSumAppend("1 255" + "44U 9" + "8067A" + "   04" + "236.5" + "60313" + "92  ." + "00020" + "137  " + "00000" + "-0  1", "6538-");
    WeightSumAppend("1 255" + "44U 9" + "8067A" + "   04" + "236.5" + "60313" + "92  ." + "00020" + "137  " + "00000" + "-0  1" + "6538-", "3 0  ");
    WeightSumAppend("1 255" + "44U 9" + "8067A" + "   04" + "236.5" + "60313" + "92  ." + "00020" + "137  " + "00000" + "-0  1" + "6538-" + "3 0  ", "999");
  }

  /** The checksum of the first 68 characters of test line 1 is 3, its 69th character. */
  lemma TestLine1Checksum()
    ensures ComputeChecksum(
      "1 255" + "44U 9" + "8067A" + "   04" + "236.5" +
      "60313" + "92  ." + "00020" + "137  " + "00000" +
      "-0  1" + "6538-" + "3 0  " + "999") == 3
  {
    TestLine1Sum();
  }

  lemma Line2Piece0()
    ensures WeightSum("2 255") == 14
  {
  }

  lemma Line2Piece1()
    ensures WeightSum("44  5") == 13
  {
  }

  lemma Line2Piece2()
    ensures WeightSum("1.633") == 13
  {
  }

  lemma Line2Piece3()
    ensures WeightSum("5 344") == 16
  {
  }

  lemma Line2Piece4()
    ensures WeightSum(".7760") == 20
  {
  }

  lemma Line2Piece5()
    ensures WeightSum(" 0007") == 7
  {
  }

  lemma Line2Piece6()
    ensures WeightSum("976 1") == 23
  {
  }

  lemma Line2Piece7()
    ensures WeightSum("26.25") == 15
  {
  }

  lemma Line2Piece8()
    ensures WeightSum("23 32") == 10
  {
  }

  lemma Line2Piece9()
    ensures WeightSum("5.935") == 22
  {
  }

  lemma Line2Piece10()
    ensures WeightSum("9 15.") == 15
  {
  }

  lemma Line2Piece11()
    ensures WeightSum("70406") == 17
  {
  }

  lemma Line2Piece12()
    ensures WeightSum("85632") == 24
  {
  }

  lemma Line2Piece13()
    ensures WeightSum("890") == 17
  {
  }

  /** The weights of the first 68 characters of test line 2 add up to 226. */
  lemma TestLine2Sum()
    ensures WeightSum(
      "2 255" + "44  5" + "1.633" + "5 344" + ".7760" +
      " 0007" + "976 1" + "26.25" + "23 32" + "5.935" +
      "9 15." + "70406" + "85632" + "890") == 226
  {
    Line2Piece0();
    Line2Piece1();
    Line2Piece2();
    Line2Piece3();
    Line2Piece4();
    Line2Piece5();
    Line2Piece6();
    Line2Piece7();
    Line2Piece8();
    Line2Piece9();
    Line2Piece10();
    Line2Piece11();
    Line2Piece12();
    Line2Piece13();
    WeightSumAppend("2 255", "44  5");
    WeightSumAppend("2 255" + "44  5", "1.633");
    WeightSumAppend("2 255" + "44  5" + "1.633", "5 344");
    WeightSumAppend("2 255" + "44  5" + "1.633" + "5 344", ".7760");
    WeightSumAppend("2 255" + "44  5" + "1.633" + "5 344" + ".7760", " 0007");
    WeightSumAppend("2 255" + "44  5" + "1.633" + "5 344" + ".7760" + " 0007", "976 1");
    WeightSumAppend("2 255" + "44  5" + "1.633" + "5 344" + ".7760" + " 0007" + "976 1", "26.25");
    WeightSumAppend("2 255" + "44  5" + "1.633" + "5 344" + ".7760" + " 0007" + "976 1" + "26.25", "23 32");
    WeightSumAppend("2 255" + "44  5" + "1.633" + "5 344" + ".7760" + " 0007" + "976 1" + "26.25" + "23 32", "5.935");
    WeightSumAppend("2 255" + "44  5" + "1.633" + "5 344" + ".7760" + " 0007" + "976 1" + "26.25" + "23 32" + "5.935", "9 15.");
    WeightSumAppend("2 255" + "44  5" + "1.633" + "5 344" + ".7760" + " 0007" + "976 1" + "26.25" + "23 32" + "5.935" + "9 15.", "70406");
    WeightSumAppend("2 255" + "44  5" + "1.633" + "5 344" + ".7760" + " 0007" + "976 1" + "26.25" + "23 32" + "5.935" + "9 15." + "70406", "85632");
    WeightSumAppend("2 255" + "44  5" + "1.633" + "5 344" + ".7760" + " 0007" + "976 1" + "26.25" + "23 32" + "5.935" + "9 15." + "70406" + "85632", "890");
  }

  /** The checksum of the first 68 characters of test line 2 is 6, its 69th character. */
  lemma TestLine2Checksum()
    ensures ComputeChecksum(
      "2 255" + "44  5" + "1.633" + "5 344" + ".7760" +
      " 0007" + "976 1" + "26.25" + "23 32" + "5.935" +
      "9 15." + "70406" + "85632" + "890") == 6
  {
    TestLine2Sum();
  }
}
