/** Base58 text for byte strings.  The encoder and the decoder work digit by digit in a
    buffer of estimated size; both are proved against the number the digits stand for, and
    the decoder is proved to accept exactly the encodings, surrounded by white space. */
module Base58 {
  import opened Basics
  import opened Limbs
  import opened Radix

  // ---- the alphabet: no 0, I, O or l ----

  function CharOf(d: nat): (c: char)
    requires d < 58
  {
    if d < 9 then '1' + d as char
    else if d < 17 then 'A' + (d - 9) as char
    else if d < 22 then 'J' + (d - 17) as char
    else if d < 33 then 'P' + (d - 22) as char
    else if d < 44 then 'a' + (d - 33) as char
    else 'm' + (d - 44) as char
  }

  // -1 for a character outside the alphabet
  function DigitOf(c: char): (d: int)
    ensures -1 <= d < 58
  {
    if '1' <= c <= '9' then c as int - '1' as int
    else if 'A' <= c <= 'H' then c as int - 'A' as int + 9
    else if 'J' <= c <= 'N' then c as int - 'J' as int + 17
    else if 'P' <= c <= 'Z' then c as int - 'P' as int + 22
    else if 'a' <= c <= 'k' then c as int - 'a' as int + 33
    else if 'm' <= c <= 'z' then c as int - 'm' as int + 44
    else -1
  }

  predicate IsSpace(c: char) {
    c == ' ' || c == 12 as char || c == '\n' || c == '\r' || c == '\t' || c == 11 as char
  }

  predicate NotSpace(c: char) {
    !IsSpace(c)
  }

  predicate IsOne(c: char) {
    c == '1'
  }

  // The digits are the characters of the alphabet in ASCII order.
  lemma AlphabetOrder(d: nat, e: nat)
    requires d < e < 58
    ensures CharOf(d) < CharOf(e)
  {}

  // The alphabet: letters and digits except 0, I, O and l.
  lemma AlphabetIs(c: char)
    ensures DigitOf(c) >= 0 <==>
            ('0' <= c <= '9' || 'A' <= c <= 'Z' || 'a' <= c <= 'z') && c !in "0IOl"
    ensures DigitOf(c) >= 0 ==> CharOf(DigitOf(c)) == c
  {}

  lemma AlphabetInverse(d: nat)
    requires d < 58
    ensures DigitOf(CharOf(d)) == d && (CharOf(d) == '1' <==> d == 0) && !IsSpace(CharOf(d)) && CharOf(d) != '\0'
  {}

  lemma AlphabetOnto(c: char)
    requires DigitOf(c) >= 0
    ensures CharOf(DigitOf(c)) == c && (DigitOf(c) == 0 <==> c == '1') && !IsSpace(c)
  {}

  ghost function Chars(ds: seq<nat>): (s: string)
    requires AllBelow(ds, 58)
    ensures |s| == |ds|
  {
    seq(|ds|, i requires 0 <= i < |ds| => CharOf(ds[i]))
  }

  ghost predicate AllDigits(s: string) {
    forall i :: 0 <= i < |s| ==> DigitOf(s[i]) >= 0
  }

  ghost function Values(s: string): (ds: seq<nat>)
    requires AllDigits(s)
    ensures |ds| == |s| && AllBelow(ds, 58)
  {
    seq(|s|, i requires 0 <= i < |s| => DigitOf(s[i]))
  }

  lemma ValuesOfChars(ds: seq<nat>)
    requires AllBelow(ds, 58)
    ensures AllDigits(Chars(ds)) && Values(Chars(ds)) == ds
  {
    forall i | 0 <= i < |ds| ensures DigitOf(Chars(ds)[i]) == ds[i] {
      AlphabetInverse(ds[i]);
    }
  }

  lemma CharsOfValues(s: string)
    requires AllDigits(s)
    ensures Chars(Values(s)) == s
  {
    forall i | 0 <= i < |s| ensures Chars(Values(s))[i] == s[i] {
      AlphabetOnto(s[i]);
    }
  }

  // ---- what is computed ----

  ghost function Zeros(n: nat): (s: seq<nat>)
    ensures |s| == n && forall i :: 0 <= i < n ==> s[i] == 0
  {
    seq(n, i => 0)
  }

  ghost function Ones(n: nat): (s: string)
    ensures |s| == n && forall i :: 0 <= i < n ==> s[i] == '1'
  {
    seq(n, i => '1')
  }

  // How many leading elements equal x.
  ghost function Leading(s: seq<nat>, x: nat, i: nat := 0): (r: nat)
    requires i <= |s|
    ensures i <= r <= |s|
    ensures forall j :: i <= j < r ==> s[j] == x
    ensures r < |s| ==> s[r] != x
    decreases |s| - i
  {
    if i == |s| || s[i] != x then i else Leading(s, x, i + 1)
  }

  // One '1' per leading zero byte, then the rest as a number in base 58.
  ghost function Encode(bytes: seq<Byte>): (s: string) {
    var z := Leading(bytes, 0);
    Ones(z) + Chars(Digits(Num(bytes[z..], 256), 58))
  }

  // Some encodings worked out.
  lemma ConcreteEncodings()
    ensures Encode([]) == "" && Encode([0, 0]) == "11" && Encode([0x61]) == "2g"
    ensures Encode([0, 0x62, 0x62, 0x62]) == "1a3gV"
  {
    hide *;
    NoBytes();
    OneByte();
    ZeroThenThree();
  }

  lemma NoBytes()
    ensures Encode([]) == "" && Encode([0, 0]) == "11"
  {
    hide Digits, Num, Leading;
    NoDigits();
    var b := [0, 0];
    LeadingIs(b, 0, 2);
    LeadingIs([], 0, 0);
    assert b[2..] == [] && Ones(2) == "11" && Ones(0) == "";
  }

  lemma OneByte()
    ensures Encode([0x61]) == "2g"
  {
    hide Digits, Num, Leading;
    LeadingIs([0x61], 0, 0);
    var none: seq<nat> := [];
    NoDigits();
    NumSnoc(none, 0x61, 256);
    assert none + [0x61] == [0x61];
    DigitsStep(1, 58, 0, 1);
    DigitsStep(97, 58, 1, 39);
    assert Chars([1, 39]) == "2g";
  }

  lemma ZeroThenThree()
    ensures Encode([0, 0x62, 0x62, 0x62]) == "1a3gV"
  {
    hide Digits, Num, Leading;
    var b := [0, 0x62, 0x62, 0x62];
    LeadingIs(b, 0, 1);
    assert b[1..] == [0x62, 0x62, 0x62];
    ThreeBytes();
    SixMillion();
    assert Ones(1) == "1" && Chars([33, 2, 39, 28]) == "a3gV";
  }

  lemma ThreeBytes()
    ensures Num([0x62, 0x62, 0x62], 256) == 6447714
  {
    hide Num;
    var none: seq<nat> := [];
    NoDigits();
    NumSnoc(none, 0x62, 256);
    NumSnoc([0x62], 0x62, 256);
    NumSnoc([0x62, 0x62], 0x62, 256);
    assert none + [0x62] == [0x62] && [0x62] + [0x62] == [0x62, 0x62];
    assert [0x62, 0x62] + [0x62] == [0x62, 0x62, 0x62];
  }

  lemma SixMillion()
    ensures Digits(6447714, 58) == [33, 2, 39, 28]
  {
    hide Digits;
    var none: seq<nat> := [];
    NoDigits();
    DigitsStep(33, 58, 0, 33);
    DigitsStep(1916, 58, 33, 2);
    DigitsStep(111167, 58, 1916, 39);
    DigitsStep(6447714, 58, 111167, 28);
  }

  lemma NoDigits()
    ensures Digits(0, 58) == [] && Num([], 256) == 0
  {}

  lemma DigitsStep(v: nat, b: nat, q: nat, r: nat)
    requires b >= 2 && v > 0 && v == q * b + r && r < b
    ensures Digits(v, b) == Digits(q, b) + [r]
  {
    DivModUnique(v, b, q, r);
  }

  // The first position from i on whose character does not satisfy p.
  ghost function Skip(s: string, p: char -> bool, i: nat): (r: nat)
    requires i <= |s|
    ensures i <= r <= |s|
    ensures forall j :: i <= j < r ==> p(s[j])
    ensures r < |s| ==> !p(s[r])
    decreases |s| - i
  {
    if i == |s| || !p(s[i]) then i else Skip(s, p, i + 1)
  }

  // Where the leading white space ends, then the '1's, then the other characters.
  ghost function Lead(str: string): (r: nat)
    ensures r <= |str|
  {
    Skip(str, IsSpace, 0)
  }

  ghost function Start(str: string): (r: nat)
    ensures Lead(str) <= r <= |str|
  {
    Skip(str, IsOne, Lead(str))
  }

  ghost function Stop(str: string): (r: nat)
    ensures Start(str) <= r <= |str|
  {
    Skip(str, NotSpace, Start(str))
  }

  // The empty result is never compared with the limit.
  ghost predicate Allowed(n: nat, max: int) {
    n == 0 || n <= max
  }

  ghost function Decode(str: string, max: int): (r: Option<seq<Byte>>) {
    var body := str[Start(str)..Stop(str)];
    if '\0' in str || !AllDigits(body) || Skip(str, IsSpace, Stop(str)) < |str| then None
    else
      var bytes: seq<Byte> := Zeros(Start(str) - Lead(str)) + Digits(Num(Values(body), 58), 256);
      if Allowed(|bytes|, max) then Some(bytes) else None
  }

  // ---- inverse to each other ----

  ghost predicate AllSpace(s: string) {
    forall i :: 0 <= i < |s| ==> IsSpace(s[i])
  }

  lemma SkipIs(s: string, p: char -> bool, i: nat, k: nat)
    requires i <= k <= |s| && (forall j :: i <= j < k ==> p(s[j])) && (k < |s| ==> !p(s[k]))
    ensures Skip(s, p, i) == k
  {}

  lemma LeadingIs(s: seq<nat>, x: nat, k: nat)
    requires k <= |s| && (forall j :: 0 <= j < k ==> s[j] == x) && (k < |s| ==> s[k] != x)
    ensures Leading(s, x) == k
  {}

  // How the decoder cuts up an encoding.
  lemma Spans(pre: string, z: nat, ds: seq<nat>, post: string)
    requires AllSpace(pre) && AllSpace(post) && AllBelow(ds, 58) && (ds != [] ==> ds[0] != 0)
    ensures var str := pre + (Ones(z) + Chars(ds)) + post;
            && Start(str) - Lead(str) == z && str[Start(str)..Stop(str)] == Chars(ds)
            && Skip(str, IsSpace, Stop(str)) == |str| && '\0' !in str
  {
    hide *;
    var str := pre + (Ones(z) + Chars(ds)) + post;
    LeadOf(pre, z, ds, post);
    StartOf(pre, z, ds, post);
    StopOf(pre, z, ds, post);
    TailOf(pre, z, ds, post);
    if z + |ds| > 0 {
      assert str[|pre| + z..|pre| + z + |ds|] == Chars(ds);
    }
  }

  lemma LeadOf(pre: string, z: nat, ds: seq<nat>, post: string)
    requires AllSpace(pre) && AllSpace(post) && AllBelow(ds, 58) && (ds != [] ==> ds[0] != 0)
    ensures var str := pre + (Ones(z) + Chars(ds)) + post; Lead(str) == if z + |ds| == 0 then |str| else |pre|
  {
    hide *;
    var str := pre + (Ones(z) + Chars(ds)) + post;
    Layout(pre, z, ds, post);
    Cuts(str);
    SkipIs(str, IsSpace, 0, if z + |ds| == 0 then |str| else |pre|);
  }

  lemma StartOf(pre: string, z: nat, ds: seq<nat>, post: string)
    requires AllSpace(pre) && AllSpace(post) && AllBelow(ds, 58) && (ds != [] ==> ds[0] != 0)
    ensures var str := pre + (Ones(z) + Chars(ds)) + post; Start(str) == if z + |ds| == 0 then |str| else |pre| + z
  {
    hide *;
    var str := pre + (Ones(z) + Chars(ds)) + post;
    LeadOf(pre, z, ds, post);
    Cuts(str);
    if z + |ds| > 0 {
      Layout(pre, z, ds, post);
      SkipIs(str, IsOne, |pre|, |pre| + z);
    }
  }

  lemma StopOf(pre: string, z: nat, ds: seq<nat>, post: string)
    requires AllSpace(pre) && AllSpace(post) && AllBelow(ds, 58) && (ds != [] ==> ds[0] != 0)
    ensures var str := pre + (Ones(z) + Chars(ds)) + post;
            Stop(str) == if z + |ds| == 0 then |str| else |pre| + z + |ds|
  {
    hide *;
    var str := pre + (Ones(z) + Chars(ds)) + post;
    StartOf(pre, z, ds, post);
    Cuts(str);
    if z + |ds| > 0 {
      Layout(pre, z, ds, post);
      SkipIs(str, NotSpace, |pre| + z, |pre| + z + |ds|);
    }
  }

  lemma TailOf(pre: string, z: nat, ds: seq<nat>, post: string)
    requires AllSpace(pre) && AllSpace(post) && AllBelow(ds, 58) && (ds != [] ==> ds[0] != 0)
    ensures var str := pre + (Ones(z) + Chars(ds)) + post; Skip(str, IsSpace, Stop(str)) == |str| && '\0' !in str
  {
    hide *;
    var str := pre + (Ones(z) + Chars(ds)) + post;
    StopOf(pre, z, ds, post);
    Layout(pre, z, ds, post);
    SkipIs(str, IsSpace, Stop(str), |str|);
  }

  // White space, then '1's, then other characters of the alphabet, then white space.
  lemma Layout(pre: string, z: nat, ds: seq<nat>, post: string)
    requires AllSpace(pre) && AllSpace(post) && AllBelow(ds, 58) && (ds != [] ==> ds[0] != 0)
    ensures var str := pre + (Ones(z) + Chars(ds)) + post; var start := |pre| + z; var stop := start + |ds|;
            && (forall i :: 0 <= i < |pre| ==> IsSpace(str[i]))
            && (forall i :: |pre| <= i < start ==> IsOne(str[i]))
            && (start < |str| ==> !IsOne(str[start]))
            && (forall i :: |pre| <= i < stop ==> !IsSpace(str[i]) && NotSpace(str[i]))
            && (forall i :: stop <= i < |str| ==> IsSpace(str[i]) && !NotSpace(str[i]))
            && '\0' !in str
  {
    hide IsSpace, Chars;
    var cs := Chars(ds);
    var str := pre + (Ones(z) + cs) + post;
    var start := |pre| + z;
    var stop := start + |cs|;
    SpaceFacts(pre);
    SpaceFacts(post);
    TextFacts(ds);
    OneIsNoSpace();
    assert forall i :: 0 <= i < |pre| ==> str[i] == pre[i];
    assert forall i :: |pre| <= i < start ==> str[i] == '1';
    assert forall i :: start <= i < stop ==> str[i] == cs[i - start];
    assert forall i :: stop <= i < |str| ==> str[i] == post[i - stop];
  }

  lemma OneIsNoSpace()
    ensures !IsSpace('1')
  {}

  lemma SpaceFacts(s: string)
    requires AllSpace(s)
    ensures forall i :: 0 <= i < |s| ==> IsSpace(s[i]) && s[i] != '1' && s[i] != '\0'
  {}

  lemma TextFacts(ds: seq<nat>)
    requires AllBelow(ds, 58)
    ensures forall i :: 0 <= i < |ds| ==>
              !IsSpace(Chars(ds)[i]) && Chars(ds)[i] != '\0' && (Chars(ds)[i] == '1' <==> ds[i] == 0)
  {
    forall i | 0 <= i < |ds|
      ensures !IsSpace(Chars(ds)[i]) && Chars(ds)[i] != '\0' && (Chars(ds)[i] == '1' <==> ds[i] == 0)
    {
      AlphabetInverse(ds[i]);
    }
  }

  // Every byte string comes back from its encoding, however much white space surrounds it.
  lemma EncodeThenDecode(bytes: seq<Byte>, pre: string, post: string, max: int)
    requires AllSpace(pre) && AllSpace(post)
    ensures Decode(pre + Encode(bytes) + post, max) == if Allowed(|bytes|, max) then Some(bytes) else None
  {
    hide Digits, Num, Leading, Skip, IsSpace, Lead, Start, Stop, AllDigits, Values, Chars;
    var z := Leading(bytes, 0);
    var ds := Digits(Num(bytes[z..], 256), 58);
    var cs, str := Chars(ds), pre + Encode(bytes) + post;
    DigitsOfNum(bytes[z..], 256);
    NumOfDigits(Num(bytes[z..], 256), 58);
    ValuesOfChars(ds);
    Spans(pre, z, ds, post);
    assert Zeros(z) + bytes[z..] == bytes;
  }

  // What the decoder accepts is an encoding of what it returns, surrounded by white space.
  lemma DecodeThenEncode(str: string, max: int) returns (pre: string, post: string)
    requires Decode(str, max).Some?
    ensures AllSpace(pre) && AllSpace(post) && Allowed(|Decode(str, max).value|, max)
    ensures str == pre + Encode(Decode(str, max).value) + post
  {
    hide *;
    pre, post := str[0..Lead(str)], str[Stop(str)..|str|];
    Accepted(str, max);
    Padding(str);
    EncodeOf(str[Start(str)..Stop(str)], Start(str) - Lead(str));
    assert str == pre + (str[Lead(str)..Start(str)] + str[Start(str)..Stop(str)]) + post;
  }

  lemma Accepted(str: string, max: int)
    requires Decode(str, max).Some?
    ensures var body := str[Start(str)..Stop(str)];
            && AllDigits(body) && (body != [] ==> body[0] != '1') && Skip(str, IsSpace, Stop(str)) == |str|
            && Decode(str, max).value == Zeros(Start(str) - Lead(str)) + Digits(Num(Values(body), 58), 256)
            && Allowed(|Decode(str, max).value|, max)
  {
    hide Skip, Digits, Num, Values, AllDigits, DigitOf;
  }

  lemma Padding(str: string)
    requires Skip(str, IsSpace, Stop(str)) == |str|
    ensures AllSpace(str[0..Lead(str)]) && AllSpace(str[Stop(str)..|str|])
    ensures str[Lead(str)..Start(str)] == Ones(Start(str) - Lead(str))
  {
    hide *;
    Cuts(str);
    SpaceRun(str, 0, Lead(str));
    SpaceRun(str, Stop(str), |str|);
    OneRun(str, Lead(str), Start(str));
  }

  lemma Cuts(str: string)
    ensures Lead(str) == Skip(str, IsSpace, 0) && Start(str) == Skip(str, IsOne, Lead(str))
    ensures Stop(str) == Skip(str, NotSpace, Start(str))
  {
    hide Skip, IsSpace;
  }

  lemma SpaceRun(s: string, i: nat, k: nat)
    requires i <= k <= |s| && k == Skip(s, IsSpace, i)
    ensures AllSpace(s[i..k])
  {
    hide Skip, IsSpace;
    forall j | 0 <= j < k - i ensures IsSpace(s[i..k][j]) {
      assert s[i..k][j] == s[i + j];
    }
  }

  lemma OneRun(s: string, i: nat, k: nat)
    requires i <= k <= |s| && k == Skip(s, IsOne, i)
    ensures s[i..k] == Ones(k - i)
  {
    hide Skip, Ones;
    forall j | 0 <= j < k - i ensures s[i..k][j] == '1' {
      assert IsOne(s[i + j]);
    }
  }

  // Encoding the bytes of a digit string gives back its characters.
  lemma EncodeOf(body: string, z: nat)
    requires AllDigits(body) && (body != [] ==> body[0] != '1')
    ensures var ms := Digits(Num(Values(body), 58), 256);
            AllBelow(Zeros(z) + ms, 256) && Encode(Zeros(z) + ms) == Ones(z) + body
  {
    if body != [] {
      AlphabetOnto(body[0]);
    }
    hide Digits, Num, Leading, DigitOf, CharOf;
    var ds := Values(body);
    var ms := Digits(Num(ds, 58), 256);
    var bytes: seq<Byte> := Zeros(z) + ms;
    DigitsOfNum(ds, 58);
    NumOfDigits(Num(ds, 58), 256);
    CharsOfValues(body);
    assert bytes[z..] == ms;
    LeadingIs(bytes, 0, z);
  }

  // The decoder accepts exactly the padded encodings of byte strings within the limit.
  lemma DecodeExactly(str: string, max: int, bytes: seq<Byte>)
    ensures Decode(str, max) == Some(bytes) <==>
            && Allowed(|bytes|, max)
            && exists pre, post :: AllSpace(pre) && AllSpace(post) && str == pre + Encode(bytes) + post
  {
    hide Decode, Encode, AllSpace;
    if Decode(str, max) == Some(bytes) {
      var pre, post := DecodeThenEncode(str, max);
    }
    if && Allowed(|bytes|, max)
       && exists pre, post :: AllSpace(pre) && AllSpace(post) && str == pre + Encode(bytes) + post
    {
      var pre, post :| AllSpace(pre) && AllSpace(post) && str == pre + Encode(bytes) + post;
      EncodeThenDecode(bytes, pre, post, max);
    }
  }

  // Different byte strings have different encodings.
  lemma EncodeInjective(a: seq<Byte>, b: seq<Byte>)
    requires Encode(a) == Encode(b)
    ensures a == b
  {
    hide Decode, Encode;
    assert "" + Encode(a) + "" == "" + Encode(b) + "";
    EncodeThenDecode(a, "", "", |a| + |b|);
    EncodeThenDecode(b, "", "", |a| + |b|);
  }

  // ---- the encoder ----

  method EncodeBase58(input: seq<Byte>) returns (str: string)
    ensures str == Encode(input)
  {
    hide Num, Digits, InUse, Pow, CharOf, Chars;
    var zeroes := 0;
    while zeroes < |input| && input[zeroes] == 0
      invariant zeroes <= |input| && Leading(input, 0) == Leading(input, 0, zeroes)
    {
      zeroes := zeroes + 1;
    }
    var rest: seq<Byte> := input[zeroes..];
    var b58, length := ToBase(rest, |rest| * 138 / 100 + 1, 256, 58) by {
      EncodeEstimate(|rest|);
    }
    var it := b58.Length - length;
    while it < b58.Length && b58[it] == 0
      invariant b58.Length - length <= it <= b58.Length
      invariant forall j :: b58.Length - length <= j < it ==> b58[j] == 0
    {
      it := it + 1;
    }
    FirstInUse(b58[..], length, it);
    UsedDigits(b58[..], length, 58);
    str := Translate(zeroes, b58, it);
  }

  method Translate(zeroes: nat, b: array<nat>, from: nat) returns (str: string)
    requires from <= b.Length && AllBelow(b[..], 58)
    ensures AllBelow(b[from..], 58) && str == Ones(zeroes) + Chars(b[from..])
  {
    hide CharOf, Chars;
    str := seq(zeroes, _ => '1');
    assert b[from..from] == [];
    CharsSnoc([], 0);
    assert str == Ones(zeroes) + Chars(b[from..from]);
    for it := from to b.Length
      invariant AllBelow(b[from..it], 58) && str == Ones(zeroes) + Chars(b[from..it])
    {
      assert b[..][it] == b[it];
      assert b[from..it + 1] == b[from..it] + [b[it]];
      CharsSnoc(b[from..it], b[it]);
      str := str + [CharOf(b[it])];
    }
    assert b[from..b.Length] == b[from..];
  }

  lemma CharsSnoc(ds: seq<nat>, d: nat)
    requires AllBelow(ds, 58) && d < 58
    ensures AllBelow(ds + [d], 58) && Chars(ds + [d]) == Chars(ds) + [CharOf(d)]
    ensures Chars([]) == []
  {}

  lemma FirstInUse(s: seq<nat>, length: nat, it: nat)
    requires InUse(s, length) && |s| - length <= it <= |s|
    requires forall j :: |s| - length <= j < it ==> s[j] == 0
    ensures it == |s| - length
  {}

  // Rewrites digits of base `from` in base `to`, one at a time.
  method ToBase(ds: seq<nat>, size: nat, from: nat, to: nat) returns (b: array<nat>, length: nat)
    requires from >= 2 && to >= 2 && AllBelow(ds, from) && Pow(from, |ds|) <= Pow(to, size)
    ensures fresh(b) && b.Length == size && AllBelow(b[..], to) && InUse(b[..], length) && length <= size
    ensures Num(b[..], to) == Num(ds, from)
  {
    hide Num, InUse, Pow;
    b := new nat[size](_ => 0);
    length := 0;
    NothingYet(b[..], ds, from, to);
    for k := 0 to |ds|
      invariant AllBelow(b[..], to) && InUse(b[..], length) && length <= size
      invariant Num(b[..], to) == Num(ds[..k], from)
    {
      RoomForNext(ds, k, from);
      length := MulAdd(b, to, from, ds[k], length);
      WithinBuffer(b[..], length);
    }
    assert ds[..|ds|] == ds;
  }

  lemma WithinBuffer(s: seq<nat>, length: nat)
    requires InUse(s, length)
    ensures length <= |s|
  {}

  lemma NothingYet(z: seq<nat>, ds: seq<nat>, from: nat, to: nat)
    requires forall i :: 0 <= i < |z| ==> z[i] == 0
    ensures InUse(z, 0) && Num(z, to) == 0 && Num(ds[..0], from) == 0
  {
    NumZeros(z, to);
  }

  lemma RoomForNext(ds: seq<nat>, k: nat, from: nat)
    requires from >= 1 && k < |ds| && AllBelow(ds, from)
    ensures Num(ds[..k], from) * from + ds[k] == Num(ds[..k + 1], from) < Pow(from, |ds|)
  {
    hide Num, Pow;
    assert ds[..k + 1] == ds[..k] + [ds[k]];
    NumSnoc(ds[..k], ds[k], from);
    NumBound(ds[..k + 1], from);
    PowExponent(from, k + 1, |ds|);
  }

  // ---- the decoder ----

  method DecodeBase58(str: string, max: int) returns (r: Option<seq<Byte>>)
    ensures r == Decode(str, max)
  {
    hide *;
    if '\0' in str {
      HasNul(str, max);
      return None;
    }
    var p, zeroes, tooMany := SkipFront(str, max);
    if tooMany {
      return None;
    }
    r := DecodeBody(str, max, p, zeroes);
  }

  lemma HasNul(str: string, max: int)
    requires '\0' in str
    ensures Decode(str, max) == None
  {}

  // Leading white space, then the '1's.
  method SkipFront(str: string, max: int) returns (p: nat, zeroes: nat, tooMany: bool)
    ensures tooMany ==> Decode(str, max) == None
    ensures !tooMany ==> p == Start(str) && zeroes == Start(str) - Lead(str) && Allowed(zeroes, max)
  {
    hide Decode;
    p := 0;
    while p < |str| && IsSpace(str[p])
      invariant p <= |str| && Lead(str) == Skip(str, IsSpace, p)
    {
      p := p + 1;
    }
    zeroes := 0;
    while p < |str| && str[p] == '1'
      invariant p <= |str| && zeroes == p - Lead(str) && Start(str) == Skip(str, IsOne, p)
      invariant Allowed(zeroes, max)
    {
      zeroes := zeroes + 1;
      if zeroes > max {
        TooLong(str, max);
        return p, zeroes, true;
      }
      p := p + 1;
    }
    tooMany := false;
  }

  lemma TooLong(str: string, max: int)
    requires Start(str) - Lead(str) > max && Start(str) > Lead(str)
    ensures Decode(str, max) == None
  {
    hide Skip, Digits, Num, Values;
  }

  // The digits, then trailing white space up to the end.
  method DecodeBody(str: string, max: int, start: nat, zeroes: nat) returns (r: Option<seq<Byte>>)
    requires '\0' !in str && start == Start(str) && zeroes == Start(str) - Lead(str) && Allowed(zeroes, max)
    ensures r == Decode(str, max)
  {
    hide *;
    var p, length := start, 0;
    var b256 := new nat[(|str| - p) * 733 / 1000 + 1](_ => 0);
    HalfStart(str, b256[..]);
    while p < |str| && !IsSpace(str[p])
      invariant Start(str) <= p <= |str| && Half(str, p, b256[..], length)
      invariant Allowed(zeroes + length, max)
    {
      var carry := DigitOf(str[p]);
      if carry == -1 {
        BadDigit(str, p, b256[..], length, max);
        return None;
      }
      BeforeStep(str, p, b256[..], length);
      ghost var before := b256[..];
      length := MulAdd(b256, 256, 58, carry, length);
      AfterStep(str, p, before, b256[..], length);
      if length + zeroes > max {
        TooLongNow(str, p + 1, b256[..], length, max);
        return None;
      }
      AllowedNow(zeroes + length, max);
      p := p + 1;
    }
    AtStop(str, p, b256[..], length);
    p := SkipTail(str, p);
    if p < |str| {
      NotAtEnd(str, max);
      return None;
    }
    Accept(str, max, b256[..], length);
    var out := Collect(zeroes, b256, b256.Length - length);
    r := Some(out);
  }

  lemma AllowedNow(n: nat, max: int)
    requires n <= max
    ensures Allowed(n, max)
  {}

  method SkipTail(str: string, p: nat) returns (q: nat)
    requires p <= |str|
    ensures q == Skip(str, IsSpace, p)
  {
    q := p;
    while q < |str| && IsSpace(str[q])
      invariant p <= q <= |str| && Skip(str, IsSpace, p) == Skip(str, IsSpace, q)
    {
      q := q + 1;
    }
  }

  method Collect(zeroes: nat, b: array<nat>, from: nat) returns (out: seq<Byte>)
    requires from <= b.Length && AllBelow(b[..], 256)
    ensures out == Zeros(zeroes) + b[from..]
  {
    out := seq(zeroes, _ => 0);
    assert out == Zeros(zeroes) + b[from..from];
    for it := from to b.Length
      invariant out == Zeros(zeroes) + b[from..it]
    {
      assert b[..][it] == b[it];
      out := out + [b[it]];
    }
    assert b[from..b.Length] == b[from..];
  }

  // The characters up to p are digits and their number is in the buffer.
  ghost predicate Half(str: string, p: nat, a: seq<nat>, length: nat) {
    && Start(str) <= p <= Stop(str)
    && AllDigits(str[Start(str)..p])
    && |a| == (|str| - Start(str)) * 733 / 1000 + 1
    && AllBelow(a, 256) && InUse(a, length)
    && Num(a, 256) == Num(Values(str[Start(str)..p]), 58)
  }

  lemma HalfStart(str: string, a: seq<nat>)
    requires |a| == (|str| - Start(str)) * 733 / 1000 + 1 && forall i :: 0 <= i < |a| ==> a[i] == 0
    ensures Half(str, Start(str), a, 0)
  {
    hide Start, Stop;
    NumZeros(a, 256);
    assert str[Start(str)..Start(str)] == "";
    assert Values("") == [];
  }

  // Within the run of non-spaces.
  lemma Inside(str: string, p: nat)
    requires Start(str) <= p <= Stop(str) && p < |str|
    ensures p < Stop(str) <==> !IsSpace(str[p])
  {}

  lemma BeforeStep(str: string, p: nat, a: seq<nat>, length: nat)
    requires Half(str, p, a, length) && p < |str| && !IsSpace(str[p]) && DigitOf(str[p]) >= 0
    ensures p < Stop(str) && AllBelow(a, 256) && InUse(a, length)
    ensures Num(a, 256) * 58 + DigitOf(str[p]) < Pow(256, |a|)
    ensures AllDigits(str[Start(str)..p + 1])
    ensures Num(Values(str[Start(str)..p + 1]), 58) == Num(a, 256) * 58 + DigitOf(str[p])
  {
    hide *;
    HalfParts(str, p, a, length);
    Inside(str, p);
    NextValue(str, Start(str), p);
    NextFits(str[Start(str)..p + 1], |str| - Start(str));
  }

  lemma HalfParts(str: string, p: nat, a: seq<nat>, length: nat)
    requires Half(str, p, a, length)
    ensures Start(str) <= p <= Stop(str) && AllDigits(str[Start(str)..p]) && AllBelow(a, 256) && InUse(a, length)
    ensures |a| == (|str| - Start(str)) * 733 / 1000 + 1 && Num(a, 256) == Num(Values(str[Start(str)..p]), 58)
  {
    hide Start, Stop, Num, InUse, AllBelow, Values, AllDigits;
  }

  lemma NextValue(str: string, start: nat, p: nat)
    requires start <= p < |str| && AllDigits(str[start..p]) && DigitOf(str[p]) >= 0
    ensures AllDigits(str[start..p + 1])
    ensures Num(Values(str[start..p + 1]), 58) == Num(Values(str[start..p]), 58) * 58 + DigitOf(str[p])
  {
    hide Num, DigitOf;
    var s, t := str[start..p], str[start..p + 1];
    assert t == s + [str[p]];
    assert Values(t) == Values(s) + [DigitOf(str[p])];
    NumSnoc(Values(s), DigitOf(str[p]), 58);
  }

  lemma NextFits(t: string, n: nat)
    requires AllDigits(t) && |t| <= n
    ensures Num(Values(t), 58) < Pow(256, n * 733 / 1000 + 1)
  {
    hide Num, Pow, DigitOf;
    NumBound(Values(t), 58);
    PowExponent(58, |t|, n);
    DecodeEstimate(n);
  }

  lemma AfterStep(str: string, p: nat, a: seq<nat>, a': seq<nat>, length: nat)
    requires Start(str) <= p < Stop(str) && AllDigits(str[Start(str)..p + 1])
    requires |a| == |a'| == (|str| - Start(str)) * 733 / 1000 + 1 && AllBelow(a', 256) && InUse(a', length)
    requires Num(Values(str[Start(str)..p + 1]), 58) == Num(a, 256) * 58 + DigitOf(str[p]) == Num(a', 256)
    ensures Half(str, p + 1, a', length)
  {
    hide Start, Stop, Num, InUse, AllBelow, Values, AllDigits, DigitOf;
  }

  lemma BadDigit(str: string, p: nat, a: seq<nat>, length: nat, max: int)
    requires Half(str, p, a, length) && p < |str| && !IsSpace(str[p]) && DigitOf(str[p]) == -1
    ensures Decode(str, max) == None
  {
    Inside(str, p);
    hide DigitOf, IsSpace, Skip, Num, Digits;
    var body := str[Start(str)..Stop(str)];
    assert body[p - Start(str)] == str[p];
  }

  // The bytes in use never become fewer.
  lemma TooLongNow(str: string, p: nat, a: seq<nat>, length: nat, max: int)
    requires Half(str, p, a, length) && p > Start(str) && length + Start(str) - Lead(str) > max
    ensures Decode(str, max) == None
  {
    var body := str[Start(str)..Stop(str)];
    if AllDigits(body) {
      Longer(str, p, a, length);
    }
    hide Digits, Num, Skip, DigitOf, IsSpace;
  }

  lemma Longer(str: string, p: nat, a: seq<nat>, length: nat)
    requires Half(str, p, a, length) && p > Start(str) && AllDigits(str[Start(str)..Stop(str)])
    ensures |Digits(Num(Values(str[Start(str)..Stop(str)]), 58), 256)| >= Max(1, length)
  {
    FirstIsNotOne(str);
    hide Start, Stop, Num, Digits, DigitOf, IsSpace, Skip;
    var s, t := str[Start(str)..p], str[Start(str)..Stop(str)];
    var u := str[p..Stop(str)];
    assert t == s + u;
    assert forall i :: 0 <= i < |u| ==> u[i] == t[|s| + i];
    assert Values(t) == Values(s) + Values(u);
    assert Values(t)[0] != 0;
    NumPositive(Values(t), 58);
    NumPrefix(Values(s), Values(u), 58);
    UsedDigits(a, length, 256);
    DigitsMonotone(Num(Values(s), 58), Num(Values(t), 58), 256);
    DigitsMonotone(1, Num(Values(t), 58), 256);
    OneDigit();
  }

  lemma OneDigit()
    ensures |Digits(1, 256)| == 1
  {
    assert Digits(0, 256) == [];
  }

  lemma FirstIsNotOne(str: string)
    ensures Start(str) < |str| && DigitOf(str[Start(str)]) >= 0 ==> DigitOf(str[Start(str)]) > 0
  {
    if Start(str) < |str| && DigitOf(str[Start(str)]) >= 0 {
      AlphabetOnto(str[Start(str)]);
    }
  }

  lemma NumPrefix(s: seq<nat>, t: seq<nat>, b: nat)
    requires b >= 1
    ensures Num(s, b) <= Num(s + t, b)
  {
    hide Num, Pow;
    NumAppend(s, t, b);
    MulMonotone(Num(s, b), 1, Pow(b, |t|));
  }

  lemma QuotientMonotone(v: nat, w: nat, b: nat)
    requires b >= 1 && v <= w
    ensures 0 <= v / b <= w / b
  {
    assert v == b * (v / b) + v % b && w == b * (w / b) + w % b;
    if v / b > w / b {
      MulMonotone(b, w / b + 1, v / b);
    }
  }

  lemma DigitsLength(v: nat, b: nat)
    requires b >= 2 && v > 0
    ensures v / b >= 0 && |Digits(v, b)| == |Digits(v / b, b)| + 1
  {
    QuotientSmaller(v, b);
  }

  lemma {:induction false} DigitsMonotone(v: nat, w: nat, b: nat)
    requires b >= 2 && v <= w
    ensures |Digits(v, b)| <= |Digits(w, b)|
    decreases w
  {
    if v > 0 {
      hide Digits;
      QuotientSmaller(w, b);
      QuotientMonotone(v, w, b);
      DigitsMonotone(v / b, w / b, b);
      DigitsLength(v, b);
      DigitsLength(w, b);
    }
  }

  lemma AtStop(str: string, p: nat, a: seq<nat>, length: nat)
    requires Half(str, p, a, length) && (p == |str| || IsSpace(str[p]))
    ensures p == Stop(str) && AllBelow(a, 256) && length <= |a|
  {
    if p < |str| {
      Inside(str, p);
    }
    hide Skip, IsSpace;
  }

  lemma NotAtEnd(str: string, max: int)
    requires Skip(str, IsSpace, Stop(str)) < |str|
    ensures Decode(str, max) == None
  {
    hide Skip, Num, Digits;
  }

  lemma Accept(str: string, max: int, a: seq<nat>, length: nat)
    requires '\0' !in str && Half(str, Stop(str), a, length) && Skip(str, IsSpace, Stop(str)) == |str|
    requires Allowed(Start(str) - Lead(str) + length, max)
    ensures length <= |a| && Decode(str, max) == Some(Zeros(Start(str) - Lead(str)) + a[|a| - length..])
  {
    hide Skip, Num, Digits, DigitOf, IsSpace, Values, AllDigits, AllBelow, Start, Stop, Lead, Decode;
    UsedDigits(a, length, 256);
    DecodeIs(str, max);
  }

  lemma DecodeIs(str: string, max: int)
    requires '\0' !in str && AllDigits(str[Start(str)..Stop(str)]) && Skip(str, IsSpace, Stop(str)) == |str|
    ensures var bytes := Zeros(Start(str) - Lead(str)) + Digits(Num(Values(str[Start(str)..Stop(str)]), 58), 256);
            Allowed(|bytes|, max) ==> Decode(str, max) == Some(bytes)
  {
    hide Skip, Num, Digits, DigitOf, IsSpace, Values, AllDigits;
  }

  // ---- with a checksum ----

  type Checksum = s: seq<Byte> | |s| == 4 witness [0, 0, 0, 0]

  // The first four bytes of the hash of a byte string.
  type HashFunction = seq<Byte> -> Checksum

  const INT_MAX := 0x7fff_ffff

  // The length limit passed down for a limit on the payload.
  function InnerLimit(max: int): int {
    if max > INT_MAX - 4 then INT_MAX else max + 4
  }

  method EncodeBase58Check(h: HashFunction, input: seq<Byte>) returns (str: string)
    ensures str == Encode(input + h(input))
  {
    str := EncodeBase58(input + h(input));
  }

  method DecodeBase58Check(h: HashFunction, str: string, max: int) returns (r: Option<seq<Byte>>)
    ensures r == DecodeCheck(h, str, max)
  {
    hide Decode;
    var inner := DecodeBase58(str, InnerLimit(max));
    if inner == None || |inner.value| < 4 {
      return None;
    }
    var n := |inner.value| - 4;
    if h(inner.value[..n]) != inner.value[n..] {
      return None;
    }
    r := Some(inner.value[..n]);
  }

  ghost function DecodeCheck(h: HashFunction, str: string, max: int): (r: Option<seq<Byte>>) {
    match Decode(str, InnerLimit(max))
    case None => None
    case Some(v) =>
      if |v| >= 4 && h(v[..|v| - 4]) == v[|v| - 4..] then Some(v[..|v| - 4]) else None
  }

  // With a checksum too, the decoder accepts exactly what the encoder produces, surrounded by
  // white space: nothing with a wrong checksum, and every payload within the limit.
  lemma DecodeCheckExactly(h: HashFunction, str: string, max: int, payload: seq<Byte>)
    ensures DecodeCheck(h, str, max) == Some(payload) <==>
            && |payload| <= max && |payload| + 4 <= INT_MAX
            && exists pre, post :: AllSpace(pre) && AllSpace(post) && str == pre + Encode(payload + h(payload)) + post
  {
    hide Decode, Encode, AllSpace;
    var full := payload + h(payload);
    assert full[..|full| - 4] == payload && full[|full| - 4..] == h(payload);
    DecodeExactly(str, InnerLimit(max), full);
    if DecodeCheck(h, str, max) == Some(payload) {
      var v := Decode(str, InnerLimit(max)).value;
      assert v == v[..|v| - 4] + v[|v| - 4..];
    }
  }
}
