/**
  The generator polynomial of degree seven as Annex A of ISO/IEC 18004:2015 lists it, which tells the order of the
  coefficients, where the roots begin, and the field.
*/
module KnownGenerator {
  import opened Gf256
  import opened ReedSolomon

  lemma Shifts(a: bv8)
    ensures Shift(0, a) == a && Shift(1, a) == Double(a) && Shift(2, a) == Double(Double(a))
    ensures Shift(3, a) == Double(Double(Double(a))) && Shift(4, a) == Double(Double(Double(Double(a))))
    ensures Shift(5, a) == Double(Double(Double(Double(Double(a)))))
    ensures Shift(6, a) == Double(Double(Double(Double(Double(Double(a))))))
  {
    hide Double;
    assert Shift(2, a) == Double(Shift(1, a)) && Shift(3, a) == Double(Shift(2, a));
    assert Shift(4, a) == Double(Shift(3, a)) && Shift(5, a) == Double(Shift(4, a));
  }

  lemma ScaledBy(n: nat, p: seq<bv8>)
    requires n <= 6
    ensures |Scale(n, p)| == |p| && forall k :: 0 <= k < |p| ==> Scale(n, p)[k] == Shift(n, p[k])
  {
  }

  lemma Degree1()
    ensures Times([0x01], 0) == [0x01, 0x01]
  {
    Shifts(0x01);
    assert Scale(0, [0x01]) == [0x01];
  }

  lemma Degree2()
    ensures Times([0x01, 0x01], 1) == [0x01, 0x03, 0x02]
  {
    Shifts(0x01);
    assert Scale(1, [0x01, 0x01]) == [0x02, 0x02];
  }

  lemma Degree3()
    ensures Times([0x01, 0x03, 0x02], 2) == [0x01, 0x07, 0x0e, 0x08]
  {
    Shifts(0x01);
    Shifts(0x02);
    Shifts(0x03);
    assert Scale(2, [0x01, 0x03, 0x02]) == [0x04, 0x0c, 0x08];
  }

  lemma Degree4()
    ensures Times([0x01, 0x07, 0x0e, 0x08], 3) == [0x01, 0x0f, 0x36, 0x78, 0x40]
  {
    Shifts(0x01);
    Shifts(0x07);
    Shifts(0x08);
    Shifts(0x0e);
    assert Scale(3, [0x01, 0x07, 0x0e, 0x08]) == [0x08, 0x38, 0x70, 0x40];
  }

  lemma Degree5()
    ensures Times([0x01, 0x0f, 0x36, 0x78, 0x40], 4) == [0x01, 0x1f, 0xc6, 0x3f, 0x93, 0x74]
  {
    Shifts(0x01);
    Shifts(0x0f);
    Shifts(0x36);
    Shifts(0x40);
    Shifts(0x78);
    assert Scale(4, [0x01, 0x0f, 0x36, 0x78, 0x40]) == [0x10, 0xf0, 0x47, 0xd3, 0x74];
  }

  lemma Degree6()
    ensures Times([0x01, 0x1f, 0xc6, 0x3f, 0x93, 0x74], 5) == [0x01, 0x3f, 0x01, 0xda, 0x20, 0xe3, 0x26]
  {
    Shifts(0x01);
    Shifts(0x1f);
    Shifts(0x3f);
    Shifts(0x74);
    Shifts(0x93);
    Shifts(0xc6);
    assert Scale(5, [0x01, 0x1f, 0xc6, 0x3f, 0x93, 0x74]) == [0x20, 0xc7, 0xe5, 0xb3, 0x97, 0x26];
  }

  lemma Degree7()
    ensures Times([0x01, 0x3f, 0x01, 0xda, 0x20, 0xe3, 0x26], 6) == [0x01, 0x7f, 0x7a, 0x9a, 0xa4, 0x0b, 0x44, 0x75]
  {
    Shifts(0x01);
    Shifts(0x20);
    Shifts(0x26);
    Shifts(0x3f);
    Shifts(0xda);
    Shifts(0xe3);
    assert Scale(6, [0x01, 0x3f, 0x01, 0xda, 0x20, 0xe3, 0x26]) == [0x40, 0x7b, 0x40, 0x84, 0xe8, 0x62, 0x75];
  }

  /** x^7 and the powers 87, 229, 146, 149, 238, 102 and 21 of alpha. */
  lemma GeneratorOfSeven()
    ensures Generator(7) == [0x01, 0x7f, 0x7a, 0x9a, 0xa4, 0x0b, 0x44, 0x75]
  {
    hide Times;
    Degree1();
    Degree2();
    Degree3();
    Degree4();
    Degree5();
    Degree6();
    Degree7();
    assert Generator(1) == Times(Generator(0), 0) && Generator(2) == Times(Generator(1), 1);
    assert Generator(3) == Times(Generator(2), 2) && Generator(4) == Times(Generator(3), 3);
    assert Generator(5) == Times(Generator(4), 4) && Generator(6) == Times(Generator(5), 5);
  }
}
