/** An example of appendix A.5 of RFC 1321, operation by operation. */
module Md5Vector {
  import opened Md5Digest

  // The block of the message "abc".
  const X: Words := [0x80636261, 0, 0, 0, 0, 0, 0, 0, 0, 0, 0, 0, 0, 0, 24, 0]

  lemma From0()
    requires Rotated(Operations(INITIAL, X, 0), 0, 0x67452301, 0xefcdab89, 0x98badcfe, 0x10325476)
    ensures Rotated(Operations(INITIAL, X, 4), 4, 0xd6d117b4, 0x7ad956f2, 0x2f6fbd72, 0x344a8432)
  {
    hide Operations, Operation, Rotated, Computed, Target, Mix, Decode;
    One(0, 0x67452301, 0xefcdab89, 0x98badcfe, 0x10325476, 0xd76aa478, 0x80636261, 7, 0xd6d117b4);
    One(1, 0x10325476, 0xd6d117b4, 0xefcdab89, 0x98badcfe, 0xe8c7b756, 0x00000000, 12, 0x344a8432);
    One(2, 0x98badcfe, 0x344a8432, 0xd6d117b4, 0xefcdab89, 0x242070db, 0x00000000, 17, 0x2f6fbd72);
    One(3, 0xefcdab89, 0x2f6fbd72, 0x344a8432, 0xd6d117b4, 0xc1bdceee, 0x00000000, 22, 0x7ad956f2);
  }

  lemma From4()
    requires Rotated(Operations(INITIAL, X, 4), 4, 0xd6d117b4, 0x7ad956f2, 0x2f6fbd72, 0x344a8432)
    ensures Rotated(Operations(INITIAL, X, 8), 8, 0xc73741ef, 0x928d99f6, 0x207dc67b, 0x8bac3051)
  {
    hide Operations, Operation, Rotated, Computed, Target, Mix, Decode;
    One(4, 0xd6d117b4, 0x7ad956f2, 0x2f6fbd72, 0x344a8432, 0xf57c0faf, 0x00000000, 7, 0xc73741ef);
    One(5, 0x344a8432, 0xc73741ef, 0x7ad956f2, 0x2f6fbd72, 0x4787c62a, 0x00000000, 12, 0x8bac3051);
    One(6, 0x2f6fbd72, 0x8bac3051, 0xc73741ef, 0x7ad956f2, 0xa8304613, 0x00000000, 17, 0x207dc67b);
    One(7, 0x7ad956f2, 0x207dc67b, 0x8bac3051, 0xc73741ef, 0xfd469501, 0x00000000, 22, 0x928d99f6);
  }

  lemma From8()
    requires Rotated(Operations(INITIAL, X, 8), 8, 0xc73741ef, 0x928d99f6, 0x207dc67b, 0x8bac3051)
    ensures Rotated(Operations(INITIAL, X, 12), 12, 0x854b3712, 0x5ed49596, 0x3020401c, 0x74e2f284)
  {
    hide Operations, Operation, Rotated, Computed, Target, Mix, Decode;
    One(8, 0xc73741ef, 0x928d99f6, 0x207dc67b, 0x8bac3051, 0x698098d8, 0x00000000, 7, 0x854b3712);
    One(9, 0x8bac3051, 0x854b3712, 0x928d99f6, 0x207dc67b, 0x8b44f7af, 0x00000000, 12, 0x74e2f284);
    One(10, 0x207dc67b, 0x74e2f284, 0x854b3712, 0x928d99f6, 0xffff5bb1, 0x00000000, 17, 0x3020401c);
    One(11, 0x928d99f6, 0x3020401c, 0x74e2f284, 0x854b3712, 0x895cd7be, 0x00000000, 22, 0x5ed49596);
  }

  lemma From12()
    requires Rotated(Operations(INITIAL, X, 12), 12, 0x854b3712, 0x5ed49596, 0x3020401c, 0x74e2f284)
    ensures Rotated(Operations(INITIAL, X, 16), 16, 0xdda9b9a6, 0x72aff2e0, 0xe396856b, 0xa1051895)
  {
    hide Operations, Operation, Rotated, Computed, Target, Mix, Decode;
    One(12, 0x854b3712, 0x5ed49596, 0x3020401c, 0x74e2f284, 0x6b901122, 0x00000000, 7, 0xdda9b9a6);
    One(13, 0x74e2f284, 0xdda9b9a6, 0x5ed49596, 0x3020401c, 0xfd987193, 0x00000000, 12, 0xa1051895);
    One(14, 0x3020401c, 0xa1051895, 0xdda9b9a6, 0x5ed49596, 0xa679438e, 0x00000018, 17, 0xe396856b);
    One(15, 0x5ed49596, 0xe396856b, 0xa1051895, 0xdda9b9a6, 0x49b40821, 0x00000000, 22, 0x72aff2e0);
  }

  lemma From16()
    requires Rotated(Operations(INITIAL, X, 16), 16, 0xdda9b9a6, 0x72aff2e0, 0xe396856b, 0xa1051895)
    ensures Rotated(Operations(INITIAL, X, 18), 18, 0xe396856b, 0x4a1d804e, 0x3e9e9126, 0x72aff2e0)
  {
    hide Operations, Operation, Rotated, Computed, Target, Mix, Decode;
    One(16, 0xdda9b9a6, 0x72aff2e0, 0xe396856b, 0xa1051895, 0xf61e2562, 0x00000000, 5, 0x3e9e9126);
    One(17, 0xa1051895, 0x3e9e9126, 0x72aff2e0, 0xe396856b, 0xc040b340, 0x00000000, 9, 0x4a1d804e);
  }

  lemma From18()
    requires Rotated(Operations(INITIAL, X, 18), 18, 0xe396856b, 0x4a1d804e, 0x3e9e9126, 0x72aff2e0)
    ensures Rotated(Operations(INITIAL, X, 20), 20, 0x3e9e9126, 0xb5b204e4, 0xe25e1652, 0x4a1d804e)
  {
    hide Operations, Operation, Rotated, Computed, Target, Mix, Decode;
    One(18, 0xe396856b, 0x4a1d804e, 0x3e9e9126, 0x72aff2e0, 0x265e5a51, 0x00000000, 14, 0xe25e1652);
    One(19, 0x72aff2e0, 0xe25e1652, 0x4a1d804e, 0x3e9e9126, 0xe9b6c7aa, 0x80636261, 20, 0xb5b204e4);
  }

  lemma From20()
    requires Rotated(Operations(INITIAL, X, 20), 20, 0x3e9e9126, 0xb5b204e4, 0xe25e1652, 0x4a1d804e)
    ensures Rotated(Operations(INITIAL, X, 24), 24, 0x59a8ffda, 0x47092c07, 0xabfc7920, 0x6d002f1e)
  {
    hide Operations, Operation, Rotated, Computed, Target, Mix, Decode;
    One(20, 0x3e9e9126, 0xb5b204e4, 0xe25e1652, 0x4a1d804e, 0xd62f105d, 0x00000000, 5, 0x59a8ffda);
    One(21, 0x4a1d804e, 0x59a8ffda, 0xb5b204e4, 0xe25e1652, 0x02441453, 0x00000000, 9, 0x6d002f1e);
    One(22, 0xe25e1652, 0x6d002f1e, 0x59a8ffda, 0xb5b204e4, 0xd8a1e681, 0x00000000, 14, 0xabfc7920);
    One(23, 0xb5b204e4, 0xabfc7920, 0x6d002f1e, 0x59a8ffda, 0xe7d3fbc8, 0x00000000, 20, 0x47092c07);
  }

  lemma From24()
    requires Rotated(Operations(INITIAL, X, 24), 24, 0x59a8ffda, 0x47092c07, 0xabfc7920, 0x6d002f1e)
    ensures Rotated(Operations(INITIAL, X, 26), 26, 0xabfc7920, 0x09388eff, 0xb7f268cf, 0x47092c07)
  {
    hide Operations, Operation, Rotated, Computed, Target, Mix, Decode;
    One(24, 0x59a8ffda, 0x47092c07, 0xabfc7920, 0x6d002f1e, 0x21e1cde6, 0x00000000, 5, 0xb7f268cf);
    One(25, 0x6d002f1e, 0xb7f268cf, 0x47092c07, 0xabfc7920, 0xc33707d6, 0x00000018, 9, 0x09388eff);
  }

  lemma From26()
    requires Rotated(Operations(INITIAL, X, 26), 26, 0xabfc7920, 0x09388eff, 0xb7f268cf, 0x47092c07)
    ensures Rotated(Operations(INITIAL, X, 28), 28, 0xb7f268cf, 0x786acb8f, 0xfe1623b1, 0x09388eff)
  {
    hide Operations, Operation, Rotated, Computed, Target, Mix, Decode;
    One(26, 0xabfc7920, 0x09388eff, 0xb7f268cf, 0x47092c07, 0xf4d50d87, 0x00000000, 14, 0xfe1623b1);
    One(27, 0x47092c07, 0xfe1623b1, 0x09388eff, 0xb7f268cf, 0x455a14ed, 0x00000000, 20, 0x786acb8f);
  }

  lemma From28()
    requires Rotated(Operations(INITIAL, X, 28), 28, 0xb7f268cf, 0x786acb8f, 0xfe1623b1, 0x09388eff)
    ensures Rotated(Operations(INITIAL, X, 32), 32, 0x790a77fb, 0x726342d3, 0xa62884aa, 0x9f47e4f8)
  {
    hide Operations, Operation, Rotated, Computed, Target, Mix, Decode;
    One(28, 0xb7f268cf, 0x786acb8f, 0xfe1623b1, 0x09388eff, 0xa9e3e905, 0x00000000, 5, 0x790a77fb);
    One(29, 0x09388eff, 0x790a77fb, 0x786acb8f, 0xfe1623b1, 0xfcefa3f8, 0x00000000, 9, 0x9f47e4f8);
    One(30, 0xfe1623b1, 0x9f47e4f8, 0x790a77fb, 0x786acb8f, 0x676f02d9, 0x00000000, 14, 0xa62884aa);
    One(31, 0x786acb8f, 0xa62884aa, 0x9f47e4f8, 0x790a77fb, 0x8d2a4c8a, 0x00000000, 20, 0x726342d3);
  }

  lemma From32()
    requires Rotated(Operations(INITIAL, X, 32), 32, 0x790a77fb, 0x726342d3, 0xa62884aa, 0x9f47e4f8)
    ensures Rotated(Operations(INITIAL, X, 34), 34, 0xa62884aa, 0x60127b2e, 0xb3707ebf, 0x726342d3)
  {
    hide Operations, Operation, Rotated, Computed, Target, Mix, Decode;
    One(32, 0x790a77fb, 0x726342d3, 0xa62884aa, 0x9f47e4f8, 0xfffa3942, 0x00000000, 4, 0xb3707ebf);
    One(33, 0x9f47e4f8, 0xb3707ebf, 0x726342d3, 0xa62884aa, 0x8771f681, 0x00000000, 11, 0x60127b2e);
  }

  lemma From34()
    requires Rotated(Operations(INITIAL, X, 34), 34, 0xa62884aa, 0x60127b2e, 0xb3707ebf, 0x726342d3)
    ensures Rotated(Operations(INITIAL, X, 36), 36, 0xb3707ebf, 0x3b0875c7, 0x8d212ff5, 0x60127b2e)
  {
    hide Operations, Operation, Rotated, Computed, Target, Mix, Decode;
    One(34, 0xa62884aa, 0x60127b2e, 0xb3707ebf, 0x726342d3, 0x6d9d6122, 0x00000000, 16, 0x8d212ff5);
    One(35, 0x726342d3, 0x8d212ff5, 0x60127b2e, 0xb3707ebf, 0xfde5380c, 0x00000018, 23, 0x3b0875c7);
  }

  lemma From36()
    requires Rotated(Operations(INITIAL, X, 36), 36, 0xb3707ebf, 0x3b0875c7, 0x8d212ff5, 0x60127b2e)
    ensures Rotated(Operations(INITIAL, X, 40), 40, 0x21b117b9, 0x5a2f5ea5, 0x3575227e, 0x6e7429d5)
  {
    hide Operations, Operation, Rotated, Computed, Target, Mix, Decode;
    One(36, 0xb3707ebf, 0x3b0875c7, 0x8d212ff5, 0x60127b2e, 0xa4beea44, 0x00000000, 4, 0x21b117b9);
    One(37, 0x60127b2e, 0x21b117b9, 0x3b0875c7, 0x8d212ff5, 0x4bdecfa9, 0x00000000, 11, 0x6e7429d5);
    One(38, 0x8d212ff5, 0x6e7429d5, 0x21b117b9, 0x3b0875c7, 0xf6bb4b60, 0x00000000, 16, 0x3575227e);
    One(39, 0x3b0875c7, 0x3575227e, 0x6e7429d5, 0x21b117b9, 0xbebfbc70, 0x00000000, 23, 0x5a2f5ea5);
  }

  lemma From40()
    requires Rotated(Operations(INITIAL, X, 40), 40, 0x21b117b9, 0x5a2f5ea5, 0x3575227e, 0x6e7429d5)
    ensures Rotated(Operations(INITIAL, X, 42), 42, 0x3575227e, 0xfadcaa38, 0x11de1779, 0x5a2f5ea5)
  {
    hide Operations, Operation, Rotated, Computed, Target, Mix, Decode;
    One(40, 0x21b117b9, 0x5a2f5ea5, 0x3575227e, 0x6e7429d5, 0x289b7ec6, 0x00000000, 4, 0x11de1779);
    One(41, 0x6e7429d5, 0x11de1779, 0x5a2f5ea5, 0x3575227e, 0xeaa127fa, 0x80636261, 11, 0xfadcaa38);
  }

  lemma From42()
    requires Rotated(Operations(INITIAL, X, 42), 42, 0x3575227e, 0xfadcaa38, 0x11de1779, 0x5a2f5ea5)
    ensures Rotated(Operations(INITIAL, X, 44), 44, 0x11de1779, 0x4c6124f4, 0x31c465ca, 0xfadcaa38)
  {
    hide Operations, Operation, Rotated, Computed, Target, Mix, Decode;
    One(42, 0x3575227e, 0xfadcaa38, 0x11de1779, 0x5a2f5ea5, 0xd4ef3085, 0x00000000, 16, 0x31c465ca);
    One(43, 0x5a2f5ea5, 0x31c465ca, 0xfadcaa38, 0x11de1779, 0x04881d05, 0x00000000, 23, 0x4c6124f4);
  }

  lemma From44()
    requires Rotated(Operations(INITIAL, X, 44), 44, 0x11de1779, 0x4c6124f4, 0x31c465ca, 0xfadcaa38)
    ensures Rotated(Operations(INITIAL, X, 48), 48, 0x7f2e507b, 0x7beb9700, 0x8fae6399, 0x99d9679d)
  {
    hide Operations, Operation, Rotated, Computed, Target, Mix, Decode;
    One(44, 0x11de1779, 0x4c6124f4, 0x31c465ca, 0xfadcaa38, 0xd9d4d039, 0x00000000, 4, 0x7f2e507b);
    One(45, 0xfadcaa38, 0x7f2e507b, 0x4c6124f4, 0x31c465ca, 0xe6db99e5, 0x00000000, 11, 0x99d9679d);
    One(46, 0x31c465ca, 0x99d9679d, 0x7f2e507b, 0x4c6124f4, 0x1fa27cf8, 0x00000000, 16, 0x8fae6399);
    One(47, 0x4c6124f4, 0x8fae6399, 0x99d9679d, 0x7f2e507b, 0xc4ac5665, 0x00000000, 23, 0x7beb9700);
  }

  lemma From48()
    requires Rotated(Operations(INITIAL, X, 48), 48, 0x7f2e507b, 0x7beb9700, 0x8fae6399, 0x99d9679d)
    ensures Rotated(Operations(INITIAL, X, 50), 50, 0x8fae6399, 0xf4e8e96e, 0x7b201df8, 0x7beb9700)
  {
    hide Operations, Operation, Rotated, Computed, Target, Mix, Decode;
    One(48, 0x7f2e507b, 0x7beb9700, 0x8fae6399, 0x99d9679d, 0xf4292244, 0x80636261, 6, 0x7b201df8);
    One(49, 0x99d9679d, 0x7b201df8, 0x7beb9700, 0x8fae6399, 0x432aff97, 0x00000000, 10, 0xf4e8e96e);
  }

  lemma From50()
    requires Rotated(Operations(INITIAL, X, 50), 50, 0x8fae6399, 0xf4e8e96e, 0x7b201df8, 0x7beb9700)
    ensures Rotated(Operations(INITIAL, X, 52), 52, 0x7b201df8, 0x8bf025c4, 0xb298cefd, 0xf4e8e96e)
  {
    hide Operations, Operation, Rotated, Computed, Target, Mix, Decode;
    One(50, 0x8fae6399, 0xf4e8e96e, 0x7b201df8, 0x7beb9700, 0xab9423a7, 0x00000018, 15, 0xb298cefd);
    One(51, 0x7beb9700, 0xb298cefd, 0xf4e8e96e, 0x7b201df8, 0xfc93a039, 0x00000000, 21, 0x8bf025c4);
  }

  lemma From52()
    requires Rotated(Operations(INITIAL, X, 52), 52, 0x7b201df8, 0x8bf025c4, 0xb298cefd, 0xf4e8e96e)
    ensures Rotated(Operations(INITIAL, X, 56), 56, 0x06cc5e8a, 0x3bfa2c27, 0x7d632dd0, 0x5b0d97aa)
  {
    hide Operations, Operation, Rotated, Computed, Target, Mix, Decode;
    One(52, 0x7b201df8, 0x8bf025c4, 0xb298cefd, 0xf4e8e96e, 0x655b59c3, 0x00000000, 6, 0x06cc5e8a);
    One(53, 0xf4e8e96e, 0x06cc5e8a, 0x8bf025c4, 0xb298cefd, 0x8f0ccc92, 0x00000000, 10, 0x5b0d97aa);
    One(54, 0xb298cefd, 0x5b0d97aa, 0x06cc5e8a, 0x8bf025c4, 0xffeff47d, 0x00000000, 15, 0x7d632dd0);
    One(55, 0x8bf025c4, 0x7d632dd0, 0x5b0d97aa, 0x06cc5e8a, 0x85845dd1, 0x00000000, 21, 0x3bfa2c27);
  }

  lemma From56()
    requires Rotated(Operations(INITIAL, X, 56), 56, 0x06cc5e8a, 0x3bfa2c27, 0x7d632dd0, 0x5b0d97aa)
    ensures Rotated(Operations(INITIAL, X, 60), 60, 0x7f81cc35, 0x7327d604, 0x4f9dbe3f, 0x094454ab)
  {
    hide Operations, Operation, Rotated, Computed, Target, Mix, Decode;
    One(56, 0x06cc5e8a, 0x3bfa2c27, 0x7d632dd0, 0x5b0d97aa, 0x6fa87e4f, 0x00000000, 6, 0x7f81cc35);
    One(57, 0x5b0d97aa, 0x7f81cc35, 0x3bfa2c27, 0x7d632dd0, 0xfe2ce6e0, 0x00000000, 10, 0x094454ab);
    One(58, 0x7d632dd0, 0x094454ab, 0x7f81cc35, 0x3bfa2c27, 0xa3014314, 0x00000000, 15, 0x4f9dbe3f);
    One(59, 0x3bfa2c27, 0x4f9dbe3f, 0x094454ab, 0x7f81cc35, 0x4e0811a1, 0x00000000, 21, 0x7327d604);
  }

  lemma From60()
    requires Rotated(Operations(INITIAL, X, 60), 60, 0x7f81cc35, 0x7327d604, 0x4f9dbe3f, 0x094454ab)
    ensures Rotated(Operations(INITIAL, X, 64), 64, 0x310ade8f, 0xc08226b3, 0xe484b9d8, 0x624d8cb2)
  {
    hide Operations, Operation, Rotated, Computed, Target, Mix, Decode;
    One(60, 0x7f81cc35, 0x7327d604, 0x4f9dbe3f, 0x094454ab, 0xf7537e82, 0x00000000, 6, 0x310ade8f);
    One(61, 0x094454ab, 0x310ade8f, 0x7327d604, 0x4f9dbe3f, 0xbd3af235, 0x00000000, 10, 0x624d8cb2);
    One(62, 0x4f9dbe3f, 0x624d8cb2, 0x310ade8f, 0x7327d604, 0x2ad7d2bb, 0x00000000, 15, 0xe484b9d8);
    One(63, 0x7327d604, 0xe484b9d8, 0x624d8cb2, 0x310ade8f, 0xeb86d391, 0x00000000, 21, 0xc08226b3);
  }

  lemma One(i: nat, a: bv32, b: bv32, c: bv32, d: bv32, t: bv32, w: bv32, s: nat, next: bv32)
    requires i < 64 && Rotated(Operations(INITIAL, X, i), i, a, b, c, d)
    requires T[i / 16][i % 16] == t && X[Word(i)] == w && R[i / 16][i % 16] == s <= 32
    requires MixSource(a, b, Selected(i, b, c, d), t, w, s) == next
    ensures Rotated(Operations(INITIAL, X, i + 1), i + 1, d, next, b, c)
  {
    hide Selected, MixSource, Operation, Rotated;
    RotatedStep(Operations(INITIAL, X, i), X, i, a, b, c, d);
  }

  lemma Begins()
    ensures Rotated(Operations(INITIAL, X, 0), 0, 0x67452301, 0xefcdab89, 0x98badcfe, 0x10325476)
  {
  }

  lemma Registers64()
    ensures Operations(INITIAL, X, 64) == [0x310ade8f, 0xc08226b3, 0xe484b9d8, 0x624d8cb2]
  {
    hide Operations, Rotated;
    Begins();
    From0();
    From4();
    From8();
    From12();
    From16();
    From18();
    From20();
    From24();
    From26();
    From28();
    From32();
    From34();
    From36();
    From40();
    From42();
    From44();
    From48();
    From50();
    From52();
    From56();
    From60();
    RotatedEnds(Operations(INITIAL, X, 64), 0x310ade8f, 0xc08226b3, 0xe484b9d8, 0x624d8cb2);
  }

  function Abc(): (b: seq<bv8>)
    ensures |b| == 64
  {
    [97, 98, 99, 0x80] + Zeros(52) + [24, 0, 0, 0, 0, 0, 0, 0]
  }

  lemma WordsOfLength()
    ensures ToWord(24) == 24 && ToWord(0) == 0
  {
  }

  lemma BytesOfLength()
    ensures ToBytes(24) == [24, 0, 0, 0] && ToBytes(0) == [0, 0, 0, 0]
  {
  }

  lemma LengthOfThree()
    ensures LengthBytes(3) == [24, 0, 0, 0, 0, 0, 0, 0]
  {
    hide ToBytes, ToWord;
    WordsOfLength();
    BytesOfLength();
    assert 3 * 8 % TWO_64 == 24;
  }

  lemma AbcPadded()
    ensures Pad([97, 98, 99]) == Abc()
  {
    hide LengthBytes, Zeros;
    LengthOfThree();
    assert ZeroBytes(3) == 52;
  }

  lemma AbcDecoded()
    ensures Decode(Abc()) == X
  {
  }

  // MD5 ("abc") = 900150983cd24fb0d6963f7d28e17f72
  lemma DigestOfAbc()
    ensures Md5Spec([97, 98, 99])
         == [0x90, 0x01, 0x50, 0x98, 0x3c, 0xd2, 0x4f, 0xb0, 0xd6, 0x96, 0x3f, 0x7d, 0x28, 0xe1, 0x7f, 0x72]
  {
    hide Operations, Decode, Pad;
    AbcPadded();
    AbcDecoded();
    Registers64();
    assert Abc()[..64] == Abc() && Abc()[64..] == [];
    assert Process(Block(INITIAL, Abc()), []) == Block(INITIAL, Abc());
  }
}
