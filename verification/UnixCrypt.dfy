// Unix crypt strings ($1$, $5$, $6$): parsing a setting, the digest, and the
// encoding. The hash functions are parameters.

module UnixCrypt {
  import opened Sequences
  import opened Text
  import opened Wrappers

  // A byte, as a character.
  type Byte = c: char | c < '\U{100}'
  type Bytes = seq<Byte>

  const ALPHABET: string := "./" + "0123456789" + "ABCDEFGHIJKLMNOPQRSTUVWXYZ" + "abcdefghijklmnopqrstuvwxyz"
  const ROUNDS_DEFAULT: nat := 5000
  const ROUNDS_MIN: nat := 1000
  const ROUNDS_MAX: nat := 999_999_999
  const ROUNDS: Bytes := "rounds="

  datatype Error = InvalidPrefix | InvalidRounds | EmptySalt | Locked | Unsupported

  // ---- numbers as text -----------------------------------------------------

  predicate AllDigits(s: Bytes) { forall i :: 0 <= i < |s| ==> Digit(s[i]) }

  function Signed(negative: bool, digits: Bytes, max: nat): Option<int> {
    if digits == [] || !AllDigits(digits) then None
    else
      var v: int := Decimal(digits);
      if negative then (if v <= max + 1 then Some(-v) else None) else if v <= max then Some(v) else None
  }

  // strconv.Atoi on integers up to max.
  function Atoi(s: Bytes, max: nat): Option<int> {
    if s != [] && (s[0] == '-' || s[0] == '+') then Signed(s[0] == '-', s[1..], max) else Signed(false, s, max)
  }

  // strconv.Itoa
  function Itoa(n: nat): (s: Bytes)
    ensures s != [] && forall i :: 0 <= i < |s| ==> Digit(s[i])
  {
    var last: Bytes := [(n % 10) as char + '0'];
    if n < 10 then last else Itoa(n / 10) + last
  }

  lemma {:induction false} DecimalOfItoa(n: nat)
    ensures Decimal(Itoa(n)) == n
  {
    if n >= 10 {
      DecimalOfItoa(n / 10);
      assert Itoa(n)[..|Itoa(n)| - 1] == Itoa(n / 10);
    } else {
      assert Itoa(n)[..0] == [];
    }
  }

  lemma AtoiOfItoa(n: nat, max: nat)
    requires n <= max
    ensures Atoi(Itoa(n), max) == Some(n)
  {
    DecimalOfItoa(n);
    assert Digit(Itoa(n)[0]);
  }

  // ---- the setting ---------------------------------------------------------

  // strings.Split(s, "$")
  function Tokens(s: Bytes): (r: seq<Bytes>)
    ensures r != []
  {
    if s == [] then [[]]
    else
      var rest := Tokens(s[1..]);
      if s[0] == '$' then [[]] + rest else [[s[0]] + rest[0]] + rest[1..]
  }

  datatype Setting = Setting(salt: Bytes, rounds: nat, explicit: bool)

  function Clamped(n: int): nat {
    if n < ROUNDS_MIN then ROUNDS_MIN else if n > ROUNDS_MAX then ROUNDS_MAX else n
  }

  function Salted(token: Bytes, prefix: Bytes, maxSalt: nat, rounds: nat, explicit: bool): Result<Setting, Error> {
    var salt := if maxSalt > 0 && |token| > maxSalt then token[..maxSalt] else token;
    if salt == [] && prefix != "$1$" then Err(EmptySalt) else Ok(Setting(salt, rounds, explicit))
  }

  // maxInt: the largest int of the platform.
  function ParseSalt(raw: Bytes, prefix: Bytes, maxSalt: nat, allowRounds: bool, maxInt: nat): Result<Setting, Error> {
    if !(prefix <= raw) then Err(InvalidPrefix)
    else
      var tokens := Tokens(raw[|prefix|..]);
      if allowRounds && ROUNDS <= tokens[0] then
        if |tokens| < 2 then Err(InvalidRounds)
        else
          var n := Atoi(tokens[0][|ROUNDS|..], maxInt);
          if n.None? then Err(InvalidRounds) else Salted(tokens[1], prefix, maxSalt, Clamped(n.value), true)
      else Salted(tokens[0], prefix, maxSalt, ROUNDS_DEFAULT, false)
  }

  function Rounded(s: Setting): Bytes { if s.explicit then ROUNDS + Itoa(s.rounds) + "$" else [] }

  // The setting as it is printed before the digest.
  function Print(prefix: Bytes, s: Setting): Bytes {
    prefix + Rounded(s) + s.salt + "$"
  }

  lemma {:induction false} FirstToken(a: Bytes, b: Bytes)
    requires '$' !in a
    ensures Tokens(a + "$" + b) == [a] + Tokens(b)
  {
    var s := a + "$" + b;
    if a == [] {
      assert s[1..] == b;
    } else {
      FirstToken(a[1..], b);
      assert s[1..] == a[1..] + "$" + b && s[0] == a[0];
      assert [a[0]] + a[1..] == a;
    }
  }

  lemma {:induction false} TokensAreClean(s: Bytes, k: nat)
    requires k < |Tokens(s)|
    ensures '$' !in Tokens(s)[k]
  {
    if s != [] {
      if s[0] == '$' {
        if k > 0 { TokensAreClean(s[1..], k - 1); }
      } else {
        TokensAreClean(s[1..], k);
      }
    }
  }

  // What a parsed setting can be.
  ghost predicate Settled(s: Setting, prefix: Bytes, maxSalt: nat, allowRounds: bool) {
    && '$' !in s.salt && (maxSalt > 0 ==> |s.salt| <= maxSalt) && (s.salt == [] ==> prefix == "$1$")
    && (s.explicit ==> allowRounds && ROUNDS_MIN <= s.rounds <= ROUNDS_MAX)
    && (!s.explicit ==> s.rounds == ROUNDS_DEFAULT && !(allowRounds && ROUNDS <= s.salt))
  }

  lemma SaltedIsSettled(token: Bytes, prefix: Bytes, maxSalt: nat, rounds: nat, explicit: bool, allowRounds: bool)
    requires '$' !in token && Salted(token, prefix, maxSalt, rounds, explicit).Ok?
    requires explicit ==> allowRounds && ROUNDS_MIN <= rounds <= ROUNDS_MAX
    requires !explicit ==> rounds == ROUNDS_DEFAULT && !(allowRounds && ROUNDS <= token)
    ensures Settled(Salted(token, prefix, maxSalt, rounds, explicit).value, prefix, maxSalt, allowRounds)
  {}

  lemma ParsedIsSettled(raw: Bytes, prefix: Bytes, maxSalt: nat, allowRounds: bool, maxInt: nat)
    requires ParseSalt(raw, prefix, maxSalt, allowRounds, maxInt).Ok?
    ensures Settled(ParseSalt(raw, prefix, maxSalt, allowRounds, maxInt).value, prefix, maxSalt, allowRounds)
  {
    var rest := raw[|prefix|..];
    var tokens := Tokens(rest);
    TokensAreClean(rest, 0);
    if allowRounds && ROUNDS <= tokens[0] {
      TokensAreClean(rest, 1);
      SaltedIsSettled(tokens[1], prefix, maxSalt, Clamped(Atoi(tokens[0][|ROUNDS|..], maxInt).value), true, allowRounds);
    } else {
      SaltedIsSettled(tokens[0], prefix, maxSalt, ROUNDS_DEFAULT, false, allowRounds);
    }
  }

  lemma {:induction false} OneToken(s: Bytes)
    requires '$' !in s
    ensures Tokens(s) == [s]
  {
    if s != [] {
      OneToken(s[1..]);
      assert [s[0]] + s[1..] == s;
    }
  }

  // tail is nothing, or a dollar sign and anything after it.
  lemma TokensOf(a: Bytes, tail: Bytes)
    requires '$' !in a && (tail == [] || tail[0] == '$')
    ensures Tokens(a + tail) == [a] + if tail == [] then [] else Tokens(tail[1..])
  {
    if tail == [] {
      OneToken(a);
      assert a + tail == a;
    } else {
      FirstToken(a, tail[1..]);
      assert a + tail == a + "$" + tail[1..];
    }
  }

  // Decimal digits, not none, up to max.
  lemma SignedMeans(negative: bool, digits: Bytes, max: nat)
    ensures Signed(negative, digits, max) ==
      if digits == [] || exists i :: 0 <= i < |digits| && !('0' <= digits[i] <= '9') then None
      else
        var v: int := Decimal(digits);
        if negative then (if v <= max + 1 then Some(-v) else None) else if v <= max then Some(v) else None
  {
    assert AllDigits(digits) <==> forall i :: 0 <= i < |digits| ==> '0' <= digits[i] <= '9';
  }

  // One sign may stand before them.
  lemma AtoiMeans(s: Bytes, max: nat)
    ensures s != [] && s[0] == '-' ==> Atoi(s, max) == Signed(true, s[1..], max)
    ensures s != [] && s[0] == '+' ==> Atoi(s, max) == Signed(false, s[1..], max)
    ensures s == [] || (s[0] != '-' && s[0] != '+') ==> Atoi(s, max) == Signed(false, s, max)
  {}

  // A setting without rounds: up to the first dollar sign, cut at maxSalt.
  lemma ParseImplicit(prefix: Bytes, salt: Bytes, tail: Bytes, maxSalt: nat, allowRounds: bool, maxInt: nat)
    requires '$' !in salt && (tail == [] || tail[0] == '$') && !(allowRounds && "rounds=" <= salt)
    ensures ParseSalt(prefix + salt + tail, prefix, maxSalt, allowRounds, maxInt) ==
      if salt == [] && prefix != "$1$" then Err(EmptySalt)
      else Ok(Setting(if 0 < maxSalt < |salt| then salt[..maxSalt] else salt, 5000, false))
  {
    var raw := prefix + salt + tail;
    assert raw[|prefix|..] == salt + tail && prefix <= raw;
    TokensOf(salt, tail);
  }

  // With rounds: a number between dollar signs, brought between 1000 and
  // 999999999.
  lemma ParseExplicit(prefix: Bytes, number: Bytes, salt: Bytes, tail: Bytes, maxSalt: nat, maxInt: nat)
    requires '$' !in number && '$' !in salt && (tail == [] || tail[0] == '$')
    ensures ParseSalt(prefix + "rounds=" + number + "$" + salt + tail, prefix, maxSalt, true, maxInt) ==
      var n := Atoi(number, maxInt);
      if n.None? then Err(InvalidRounds)
      else if salt == [] && prefix != "$1$" then Err(EmptySalt)
      else Ok(Setting(
        if 0 < maxSalt < |salt| then salt[..maxSalt] else salt,
        if n.value < 1000 then 1000 else if n.value > 999_999_999 then 999_999_999 else n.value, true))
  {
    var raw, first := prefix + "rounds=" + number + "$" + salt + tail, ROUNDS + number;
    var rest := salt + tail;
    assert raw[|prefix|..] == first + "$" + rest && prefix <= raw;
    FirstToken(first, rest);
    TokensOf(salt, tail);
    assert first[|ROUNDS|..] == number;
  }

  // Without a dollar sign behind the number there is no salt.
  lemma ParseWithoutSalt(prefix: Bytes, number: Bytes, maxSalt: nat, maxInt: nat)
    requires '$' !in number
    ensures ParseSalt(prefix + "rounds=" + number, prefix, maxSalt, true, maxInt) == Err(InvalidRounds)
  {
    var raw, first := prefix + "rounds=" + number, ROUNDS + number;
    assert raw[|prefix|..] == first && prefix <= raw;
    OneToken(first);
  }

  lemma PrintParts(s: Setting, prefix: Bytes, digest: Bytes)
    ensures s.explicit ==> Print(prefix, s) + digest == prefix + "rounds=" + Itoa(s.rounds) + "$" + s.salt + ("$" + digest)
    ensures !s.explicit ==> Print(prefix, s) + digest == prefix + s.salt + ("$" + digest)
  {}

  // Printing a setting and parsing it again, with any digest behind it, gives
  // the setting back.
  lemma ParseOfPrint(s: Setting, prefix: Bytes, maxSalt: nat, allowRounds: bool, maxInt: nat, digest: Bytes)
    requires Settled(s, prefix, maxSalt, allowRounds) && maxInt >= ROUNDS_MAX
    ensures ParseSalt(Print(prefix, s) + digest, prefix, maxSalt, allowRounds, maxInt) == Ok(s)
  {
    PrintParts(s, prefix, digest);
    if s.explicit {
      assert forall i :: 0 <= i < |Itoa(s.rounds)| ==> Digit(Itoa(s.rounds)[i]);
      AtoiOfItoa(s.rounds, maxInt);
      ParseExplicit(prefix, Itoa(s.rounds), s.salt, "$" + digest, maxSalt, maxInt);
    } else {
      ParseImplicit(prefix, s.salt, "$" + digest, maxSalt, allowRounds, maxInt);
    }
  }

  // ---- base 64 -------------------------------------------------------------

  // The k-th character of the alphabet.
  function Symbol(k: nat): Byte
    requires k < 64
  {
    if k < 2 then '.' + k as char
    else if k < 12 then '0' + (k - 2) as char
    else if k < 38 then 'A' + (k - 12) as char
    else 'a' + (k - 38) as char
  }

  lemma Capitals(k: nat)
    requires k < 26
    ensures "ABCDEFGHIJKLMNOPQRSTUVWXYZ"[k] == 'A' + k as char && "abcdefghijklmnopqrstuvwxyz"[k] == 'a' + k as char
  {}

  lemma SymbolIsAlphabet(k: nat)
    requires k < 64
    ensures |ALPHABET| == 64 && Symbol(k) == ALPHABET[k]
  {
    if 12 <= k { Capitals(if k < 38 then k - 12 else k - 38); }
  }

  function Index(c: Byte): (k: nat)
    ensures k < 64
  {
    var v := c as nat;
    if c < '0' then (if c < '.' then 0 else v - '.' as nat)
    else if c <= '9' then v - '0' as nat + 2
    else if 'A' <= c <= 'Z' then v - 'A' as nat + 12
    else if 'a' <= c <= 'z' then v - 'a' as nat + 38
    else 0
  }

  lemma IndexOfSymbol(k: nat)
    requires k < 64
    ensures Index(Symbol(k)) == k
  {}

  // n symbols of v, the lowest six bits first.
  function Symbols(v: nat, n: nat): (r: Bytes)
    ensures |r| == n
  {
    if n == 0 then [] else [Symbol(v % 64)] + Symbols(v / 64, n - 1)
  }

  function Code(s: Bytes): nat { if s == [] then 0 else Index(s[0]) + 64 * Code(s[1..]) }

  // The bytes of v, the lowest first.
  function LittleEndian(s: Bytes): nat { if s == [] then 0 else s[0] as nat + 256 * LittleEndian(s[1..]) }

  function BytesOf(v: nat, n: nat): Bytes {
    if n == 0 then [] else [(v % 256) as char] + BytesOf(v / 256, n - 1)
  }

  // One to three bytes give one symbol more.
  function Encode(s: Bytes): (r: Bytes)
    ensures |r| == |s| + 1
  {
    Symbols(LittleEndian(s), |s| + 1)
  }

  function Base64(s: Bytes): Bytes {
    if |s| >= 3 then Encode(s[..3]) + Base64(s[3..])
    else if s == [] then []
    else Encode(s)
  }

  lemma {:induction false} Base64Length(s: Bytes)
    ensures |Base64(s)| == (8 * |s| + 5) / 6
  {
    if |s| >= 3 { Base64Length(s[3..]); }
  }

  // Reads n bytes back.
  function Unbase64(n: nat, r: Bytes): Bytes {
    if n >= 3 && |r| >= 4 then BytesOf(Code(r[..4]), 3) + Unbase64(n - 3, r[4..]) else BytesOf(Code(r), n)
  }

  function Pow(b: nat, n: nat): nat { if n == 0 then 1 else b * Pow(b, n - 1) }

  lemma {:induction false} CodeOfSymbols(v: nat, n: nat)
    requires v < Pow(64, n)
    ensures Code(Symbols(v, n)) == v
  {
    if n > 0 {
      CodeOfSymbols(v / 64, n - 1);
      IndexOfSymbol(v % 64);
    }
  }

  lemma LowByte(low: nat, high: nat)
    requires low < 256
    ensures (low + 256 * high) % 256 == low && (low + 256 * high) / 256 == high
  {}

  lemma {:induction false} BytesOfLittleEndian(s: Bytes)
    ensures BytesOf(LittleEndian(s), |s|) == s && LittleEndian(s) < Pow(256, |s|)
  {
    if s != [] {
      BytesOfLittleEndian(s[1..]);
      assert s == [s[0]] + s[1..];
      LowByte(s[0] as nat, LittleEndian(s[1..]));
    }
  }

  lemma GroupFits(s: Bytes)
    requires |s| <= 3
    ensures LittleEndian(s) < Pow(64, |s| + 1)
  {
    BytesOfLittleEndian(s);
    assert Pow(256, 1) == 256 && Pow(256, 2) == 65536 && Pow(256, 3) == 16777216;
    assert Pow(64, 1) == 64 && Pow(64, 2) == 4096 && Pow(64, 3) == 262144 && Pow(64, 4) == 16777216;
  }

  lemma EncodeBack(s: Bytes)
    requires |s| <= 3
    ensures BytesOf(Code(Encode(s)), |s|) == s
  {
    GroupFits(s);
    CodeOfSymbols(LittleEndian(s), |s| + 1);
    BytesOfLittleEndian(s);
  }

  // Decoding is a left inverse: the symbols determine the bytes.
  lemma {:induction false} Unbase64OfBase64(s: Bytes)
    ensures Unbase64(|s|, Base64(s)) == s
  {
    if |s| >= 3 {
      var head := s[..3];
      EncodeBack(head);
      Unbase64OfBase64(s[3..]);
      assert Base64(s)[..4] == Encode(head) && Base64(s)[4..] == Base64(s[3..]);
      assert s == head + s[3..];
    } else {
      EncodeBack(s);
    }
  }

  lemma LittleEndianIs(s: Bytes)
    ensures |s| == 1 ==> LittleEndian(s) == s[0] as nat
    ensures |s| == 2 ==> LittleEndian(s) == s[0] as nat + 256 * s[1] as nat
    ensures |s| == 3 ==> LittleEndian(s) == s[0] as nat + 256 * s[1] as nat + 65536 * s[2] as nat
  {
    if |s| == 2 { assert s[1..] == [s[1]]; }
    if |s| == 3 { assert s[1..] == [s[1], s[2]] && [s[1], s[2]][1..] == [s[2]]; }
  }

  lemma SymbolsAre(v: nat)
    ensures Symbols(v, 2) == [Symbol(v % 64), Symbol(v / 64 % 64)]
    ensures Symbols(v, 3) == [Symbol(v % 64), Symbol(v / 64 % 64), Symbol(v / 4096 % 64)]
    ensures Symbols(v, 4) == [Symbol(v % 64), Symbol(v / 64 % 64), Symbol(v / 4096 % 64), Symbol(v / 262144 % 64)]
  {
    assert v / 64 / 64 == v / 4096 && v / 4096 / 64 == v / 262144;
  }

  lemma TopSymbol(v: nat)
    ensures v < 16777216 ==> v / 262144 < 64 && v / 262144 % 64 == v / 262144
    ensures v < 262144 ==> v / 4096 < 64 && v / 4096 % 64 == v / 4096
  {}

  lemma GroupSymbols(g: Bytes)
    requires |g| == 3
    ensures var val := g[2] as nat * 65536 + g[1] as nat * 256 + g[0] as nat;
      && val / 262144 < 64
      && Encode(g) == [Symbol(val % 64), Symbol(val / 64 % 64), Symbol(val / 4096 % 64), Symbol(val / 262144)]
  {
    var val := g[2] as nat * 65536 + g[1] as nat * 256 + g[0] as nat;
    LittleEndianIs(g);
    assert LittleEndian(g) == val;
    SymbolsAre(val);
    TopSymbol(val);
  }

  lemma PairSymbols(g: Bytes)
    requires |g| == 2
    ensures var val := g[0] as nat + g[1] as nat * 256;
      && val / 4096 < 64
      && Encode(g) == [Symbol(val % 64), Symbol(val / 64 % 64), Symbol(val / 4096)]
  {
    var val := g[0] as nat + g[1] as nat * 256;
    LittleEndianIs(g);
    assert LittleEndian(g) == val;
    SymbolsAre(val);
    TopSymbol(val);
  }

  lemma OneSymbols(g: Bytes)
    requires |g| == 1
    ensures Encode(g) == [Symbol(g[0] as nat % 64), Symbol(g[0] as nat / 64 % 64)]
  {
    LittleEndianIs(g);
    SymbolsAre(g[0] as nat);
  }

  method WriteGroup(dst: array<Byte>, di: nat, g: Bytes)
    requires |g| == 3 && di + 4 <= dst.Length
    modifies dst
    ensures dst[..di + 4] == old(dst[..di]) + Encode(g)
  {
    GroupSymbols(g);
    var val := g[2] as nat * 65536 + g[1] as nat * 256 + g[0] as nat;
    Put(dst, di, [Symbol(val % 64), Symbol(val / 64 % 64), Symbol(val / 4096 % 64), Symbol(val / 262144)]);
  }

  // dst[di], dst[di+1], ... := s
  method Put(dst: array<Byte>, di: nat, s: Bytes)
    requires di + |s| <= dst.Length
    modifies dst
    ensures dst[..di + |s|] == old(dst[..di]) + s
  {
    for i := 0 to |s|
      invariant dst[..di] == old(dst[..di]) && forall k :: 0 <= k < i ==> dst[di + k] == s[k]
    {
      dst[di + i] := s[i];
    }
  }

  lemma GroupInside(done: Bytes, src: Bytes, si: nat, all: Bytes)
    requires si + 3 <= |src| && done + Base64(src[si..]) == all
    ensures |done| + 4 <= |all|
    ensures done + Encode(src[si..si + 3]) + Base64(src[si + 3..]) == all
  {
    var left := src[si..];
    assert left[3..] == src[si + 3..] && left[..3] == src[si..si + 3];
    Associates(done, Encode(left[..3]), Base64(left[3..]));
  }

  // dst holds the code of src[..si] in its first di bytes.
  ghost predicate CodedTo(done: Bytes, src: Bytes, si: nat, all: Bytes) { si <= |src| && done + Base64(src[si..]) == all }

  method WriteGroupAt(dst: array<Byte>, di: nat, src: Bytes, si: nat, ghost all: Bytes)
    requires si + 3 <= |src| && di <= dst.Length == |all| && CodedTo(dst[..di], src, si, all)
    modifies dst
    ensures di + 4 <= dst.Length && CodedTo(dst[..di + 4], src, si + 3, all)
  {
    GroupInside(dst[..di], src, si, all);
    WriteGroup(dst, di, src[si..si + 3]);
  }

  // The loop over the groups of three; m counts them.
  method WriteGroups(dst: array<Byte>, src: Bytes, n: nat, ghost m: nat, ghost all: Bytes) returns (di: nat)
    requires n == 3 * m <= |src| && dst.Length == |all| && CodedTo([], src, 0, all)
    modifies dst
    ensures di <= dst.Length && CodedTo(dst[..di], src, n, all)
  {
    ghost var k := 0;
    var si := 0;
    di := 0;
    assert dst[..0] == [];
    while si < n
      invariant si == 3 * k <= n && di <= dst.Length && CodedTo(dst[..di], src, si, all)
    {
      WriteGroupAt(dst, di, src, si, all);
      di, si, k := di + 4, si + 3, k + 1;
    }
  }

  // Groups of three, then the one or two bytes left.
  method CryptBase64(src: Bytes) returns (dst: array<Byte>)
    ensures fresh(dst) && dst[..] == Base64(src)
  {
    Base64Length(src);
    dst := new Byte[(|src| * 8 + 5) / 6];
    var n := |src| / 3 * 3;
    assert src[0..] == src;
    var di := WriteGroups(dst, src, n, |src| / 3, Base64(src));
    var left := src[n..];
    assert |dst[..di]| + |Base64(left)| == |Base64(src)|;
    assert dst[..dst.Length] == dst[..];
    if left == [] { return; }
    WriteLast(dst, di, left);
  }

  // One or two bytes.
  method WriteLast(dst: array<Byte>, di: nat, left: Bytes)
    requires 1 <= |left| <= 2 && dst.Length == di + |left| + 1
    modifies dst
    ensures dst[..] == old(dst[..di]) + Base64(left)
  {
    var val := left[0] as nat;
    if |left| == 2 {
      val := val + left[1] as nat * 256;
      PairSymbols(left);
      Put(dst, di, [Symbol(val % 64), Symbol(val / 64 % 64), Symbol(val / 4096)]);
    } else {
      OneSymbols(left);
      Put(dst, di, [Symbol(val % 64), Symbol(val / 64 % 64)]);
    }
    assert dst[..dst.Length] == dst[..];
  }

  // ---- the digest ----------------------------------------------------------

  ghost predicate Gives(hash: Bytes -> Bytes, size: nat) { forall s :: |hash(s)| == size }

  function RepeatTo(src: Bytes, size: nat): Bytes
    requires src != [] || size == 0
  {
    seq(size, i requires 0 <= i < size => src[i % |src|])
  }

  function Times(s: Bytes, n: nat): Bytes { if n == 0 then [] else Times(s, n - 1) + s }

  // One piece for each bit of i, the lowest first.
  function Mix(even: Bytes, odd: Bytes, i: nat): Bytes {
    if i == 0 then [] else (if i % 2 == 0 then even else odd) + Mix(even, odd, i / 2)
  }

  function Joined(pieces: seq<Bytes>): Bytes { if pieces == [] then [] else pieces[0] + Joined(pieces[1..]) }

  // The number with these binary digits, the lowest first.
  function Value(bits: seq<bool>): nat { if bits == [] then 0 else (if bits[0] then 1 else 0) + 2 * Value(bits[1..]) }

  // One piece for each binary digit up to the highest, the lowest first.
  lemma {:induction false} MixIsBits(even: Bytes, odd: Bytes, bits: seq<bool>)
    requires bits == [] || bits[|bits| - 1]
    ensures bits != [] ==> Value(bits) > 0
    ensures Mix(even, odd, Value(bits)) == Joined(seq(|bits|, k requires 0 <= k < |bits| => if bits[k] then odd else even))
  {
    if bits != [] {
      var tail := bits[1..];
      var pieces := seq(|bits|, k requires 0 <= k < |bits| => if bits[k] then odd else even);
      MixIsBits(even, odd, tail);
      assert pieces[1..] == seq(|tail|, k requires 0 <= k < |tail| => if tail[k] then odd else even);
      assert Value(bits) / 2 == Value(tail);
    }
  }

  lemma {:induction false} TimesAt(s: Bytes, n: nat, q: nat, k: nat)
    requires q < n && k < |s|
    ensures |Times(s, n)| == n * |s| && q * |s| + k < n * |s| && Times(s, n)[q * |s| + k] == s[k]
  {
    TimesSize(s, n);
    TimesSize(s, n - 1);
    assert n * |s| == (n - 1) * |s| + |s|;
    if q < n - 1 { TimesAt(s, n - 1, q, k); }
  }

  lemma {:induction false} TimesSize(s: Bytes, n: nat)
    ensures |Times(s, n)| == n * |s|
  {
    if n > 0 {
      TimesSize(s, n - 1);
      assert n * |s| == (n - 1) * |s| + |s|;
    }
  }

  function RoundInput(p: Bytes, s: Bytes, a: Bytes, i: nat): Bytes {
    (if i % 2 != 0 then p else a) + (if i % 3 != 0 then s else []) + (if i % 7 != 0 then p else [])
    + if i % 2 != 0 then a else p
  }

  // What round i hashes, by the divisors of i among 2, 3 and 7.
  lemma RoundPieces(p: Bytes, s: Bytes, a: Bytes, i: nat)
    ensures var r := RoundInput(p, s, a, i);
      match (i % 2 == 1, i % 3 == 0, i % 7 == 0)
      case (true, false, false) => r == p + s + p + a
      case (false, false, false) => r == a + s + p + p
      case (true, true, false) => r == p + p + a
      case (false, true, false) => r == a + p + p
      case (true, false, true) => r == p + s + a
      case (false, false, true) => r == a + s + p
      case (true, true, true) => r == p + a
      case (false, true, true) => r == a + p
  {}

  function Rounds(hash: Bytes -> Bytes, p: Bytes, s: Bytes, a: Bytes, n: nat): Bytes {
    if n == 0 then a else hash(RoundInput(p, s, Rounds(hash, p, s, a, n - 1), n - 1))
  }

  lemma RoundsSize(hash: Bytes -> Bytes, p: Bytes, s: Bytes, a: Bytes, n: nat)
    requires Gives(hash, |a|)
    ensures |Rounds(hash, p, s, a, n)| == |a|
  {}

  function ShaStart(hash: Bytes -> Bytes, key: Bytes, salt: Bytes): Bytes
    requires hash(key + salt + key) != []
  {
    var b := hash(key + salt + key);
    hash(key + salt + RepeatTo(b, |key|) + Mix(key, b, |key|))
  }

  ghost function ShaDigest(hash: Bytes -> Bytes, size: nat, key: Bytes, salt: Bytes, rounds: nat): (d: Bytes)
    requires Gives(hash, size) && size > 0
    ensures |d| == size
  {
    var a := ShaStart(hash, key, salt);
    var p := RepeatTo(hash(Times(key, |key|)), |key|);
    var s := RepeatTo(hash(Times(salt, 16 + a[0] as nat)), |salt|);
    RoundsSize(hash, p, s, a, rounds);
    Rounds(hash, p, s, a, rounds)
  }

  ghost function Md5Digest(hash: Bytes -> Bytes, key: Bytes, salt: Bytes): (d: Bytes)
    requires Gives(hash, 16)
    ensures |d| == 16
  {
    var b := hash(key + salt + key);
    var first := if |key| > 0 then key[..1] else [];
    var a := hash(key + "$1$" + salt + RepeatTo(b, |key|) + Mix(first, ['\0'], |key|));
    RoundsSize(hash, key, salt, a, 1000);
    Rounds(hash, key, salt, a, 1000)
  }

  const ORDER_16: seq<nat> := [12, 6, 0, 13, 7, 1, 14, 8, 2, 15, 9, 3, 5, 10, 4, 11]

  const ORDER_32: seq<nat> := [
    20, 10, 0, 11, 1, 21, 2, 22, 12, 23, 13, 3, 14, 4, 24, 5, 25, 15, 26, 16, 6, 17, 7, 27, 8, 28, 18, 29, 19, 9, 30, 31]

  const ORDER_64: seq<nat> := [
    42, 21, 0, 1, 43, 22, 23, 2, 44, 45, 24, 3, 4, 46, 25, 26, 5, 47, 48, 27, 6, 7, 49, 28, 29, 8, 50, 51, 30, 9, 10, 52]
    + [31, 32, 11, 53, 54, 33, 12, 13, 55, 34, 35, 14, 56, 57, 36, 15, 16, 58, 37, 38, 17, 59, 60, 39, 18, 19, 61, 40, 41, 20, 62, 63]

  // The bytes that share a group are a third of the digest apart.
  lemma Order16Groups(g: nat)
    requires g < 5
    ensures ORDER_16[3 * g + 1] == 6 + g && ORDER_16[3 * g + 2] == g
    ensures ORDER_16[3 * g] == if g < 4 then 12 + g else 5
    ensures ORDER_16[15] == 11
  {}

  lemma Order32Groups(g: nat)
    requires g < 10
    ensures ORDER_32[3 * g] == (20 + 21 * g) % 30 && ORDER_32[3 * g + 1] == (10 + 21 * g) % 30 && ORDER_32[3 * g + 2] == 21 * g % 30
    ensures ORDER_32[30] == 30 && ORDER_32[31] == 31
  {}

  lemma Order64Groups(g: nat)
    requires g < 21
    ensures ORDER_64[3 * g] == (42 + 22 * g) % 63 && ORDER_64[3 * g + 1] == (21 + 22 * g) % 63 && ORDER_64[3 * g + 2] == 22 * g % 63
    ensures ORDER_64[63] == 63
  {
    if g < 5 { Order64First(g); } else if g < 10 { Order64Second(g); } else if g < 13 { Order64Third(g); }
    else if g < 17 { Order64Fourth(g); } else { Order64Fifth(g); }
  }

  lemma Order64First(g: nat)
    requires g < 5
    ensures ORDER_64[3 * g] == (42 + 22 * g) % 63 && ORDER_64[3 * g + 1] == (21 + 22 * g) % 63 && ORDER_64[3 * g + 2] == 22 * g % 63
  {}

  lemma Order64Second(g: nat)
    requires 5 <= g < 10
    ensures ORDER_64[3 * g] == (42 + 22 * g) % 63 && ORDER_64[3 * g + 1] == (21 + 22 * g) % 63 && ORDER_64[3 * g + 2] == 22 * g % 63
  {}

  lemma Order64Third(g: nat)
    requires 10 <= g < 13
    ensures ORDER_64[3 * g] == (42 + 22 * g) % 63 && ORDER_64[3 * g + 1] == (21 + 22 * g) % 63 && ORDER_64[3 * g + 2] == 22 * g % 63
  {}

  lemma Order64Fourth(g: nat)
    requires 13 <= g < 17
    ensures ORDER_64[3 * g] == (42 + 22 * g) % 63 && ORDER_64[3 * g + 1] == (21 + 22 * g) % 63 && ORDER_64[3 * g + 2] == 22 * g % 63
  {}

  lemma Order64Fifth(g: nat)
    requires 17 <= g < 21
    ensures ORDER_64[3 * g] == (42 + 22 * g) % 63 && ORDER_64[3 * g + 1] == (21 + 22 * g) % 63 && ORDER_64[3 * g + 2] == 22 * g % 63
  {}

  predicate Bounded(order: seq<nat>, n: nat) { forall i :: 0 <= i < |order| ==> order[i] < n }

  predicate Covers(order: seq<nat>, lo: nat, hi: nat) { forall k :: lo <= k < hi ==> k in order }

  predicate Permutes(order: seq<nat>, n: nat) { |order| == n && Bounded(order, n) && Covers(order, 0, n) }

  lemma Order16Permutes()
    ensures Permutes(ORDER_16, 16)
  {}

  lemma Order32Permutes()
    ensures Permutes(ORDER_32, 32)
  {}

  lemma Order64Low()
    ensures Covers(ORDER_64, 0, 21)
  {}

  lemma Order64Mid()
    ensures Covers(ORDER_64, 21, 42)
  {}

  lemma Order64High()
    ensures Covers(ORDER_64, 42, 64)
  {}

  lemma Order64Permutes()
    ensures Permutes(ORDER_64, 64)
  {
    Order64Low();
    Order64Mid();
    Order64High();
    assert Bounded(ORDER_64, 64);
  }

  function Reordered(sum: Bytes, order: seq<nat>): (r: Bytes)
    requires Bounded(order, |sum|)
    ensures |r| == |order| && forall i :: 0 <= i < |order| ==> r[i] == sum[order[i]]
  {
    seq(|order|, i requires 0 <= i < |order| => sum[order[i]])
  }

  // A reordering by a permutation determines what was reordered.
  lemma ReorderedIsInjective(a: Bytes, b: Bytes, order: seq<nat>)
    requires |a| == |b| && Permutes(order, |a|) && Reordered(a, order) == Reordered(b, order)
    ensures a == b
  {
    forall k | 0 <= k < |a| ensures a[k] == b[k] {
      assert k in order;
      var i :| 0 <= i < |order| && order[i] == k;
      assert Reordered(a, order)[i] == Reordered(b, order)[i];
    }
  }

  // ---- the crypt strings ---------------------------------------------------

  // The order in which the digest bytes are encoded.
  function OrderFor(size: nat): seq<nat> { if size == 16 then ORDER_16 else if size == 32 then ORDER_32 else ORDER_64 }

  lemma OrderPermutes(size: nat)
    requires size == 16 || size == 32 || size == 64
    ensures Permutes(OrderFor(size), size)
  {
    Order16Permutes();
    Order32Permutes();
    Order64Permutes();
  }

  function Encoded(digest: Bytes): Bytes
    requires |digest| == 16 || |digest| == 32 || |digest| == 64
  {
    OrderPermutes(|digest|);
    Base64(Reordered(digest, OrderFor(|digest|)))
  }

  function CryptString(prefix: Bytes, s: Setting, digest: Bytes): Bytes
    requires |digest| == 16 || |digest| == 32 || |digest| == 64
  {
    Print(prefix, s) + Encoded(digest)
  }

  ghost function ShaCrypt(hash: Bytes -> Bytes, size: nat, prefix: Bytes, key: Bytes, raw: Bytes, maxInt: nat): Result<Bytes, Error>
    requires Gives(hash, size) && (size == 32 || size == 64)
  {
    var s := ParseSalt(raw, prefix, 16, true, maxInt);
    if s.Err? then Err(s.error)
    else Ok(CryptString(prefix, s.value, ShaDigest(hash, size, key, s.value.salt, s.value.rounds)))
  }

  ghost function Md5Crypt(hash: Bytes -> Bytes, key: Bytes, raw: Bytes, maxInt: nat): Result<Bytes, Error>
    requires Gives(hash, 16)
  {
    var s := ParseSalt(raw, "$1$", 8, false, maxInt);
    if s.Err? then Err(s.error) else Ok(CryptString("$1$", s.value, Md5Digest(hash, key, s.value.salt)))
  }

  // Under one setting, different digests have different strings.
  lemma CryptStringIsInjective(prefix: Bytes, s: Setting, a: Bytes, b: Bytes)
    requires |a| == |b| && (|a| == 16 || |a| == 32 || |a| == 64)
    requires CryptString(prefix, s, a) == CryptString(prefix, s, b)
    ensures a == b
  {
    var order := OrderFor(|a|);
    OrderPermutes(|a|);
    var x, y := Reordered(a, order), Reordered(b, order);
    var n := |Print(prefix, s)|;
    assert Base64(x) == CryptString(prefix, s, a)[n..] && Base64(y) == CryptString(prefix, s, b)[n..];
    Unbase64OfBase64(x);
    Unbase64OfBase64(y);
    ReorderedIsInjective(a, b, order);
  }

  // A crypt string is its own setting: crypting the password again with it as
  // the setting gives the same string.
  lemma ShaCryptIsFixpoint(hash: Bytes -> Bytes, size: nat, prefix: Bytes, key: Bytes, raw: Bytes, maxInt: nat)
    requires Gives(hash, size) && (size == 32 || size == 64) && maxInt >= ROUNDS_MAX
    requires ShaCrypt(hash, size, prefix, key, raw, maxInt).Ok?
    ensures ShaCrypt(hash, size, prefix, key, ShaCrypt(hash, size, prefix, key, raw, maxInt).value, maxInt)
         == ShaCrypt(hash, size, prefix, key, raw, maxInt)
  {
    ShaSettingStays(hash, size, prefix, key, raw, maxInt);
  }

  lemma ShaSettingStays(hash: Bytes -> Bytes, size: nat, prefix: Bytes, key: Bytes, raw: Bytes, maxInt: nat)
    requires Gives(hash, size) && (size == 32 || size == 64) && maxInt >= ROUNDS_MAX
    requires ShaCrypt(hash, size, prefix, key, raw, maxInt).Ok?
    ensures ParseSalt(ShaCrypt(hash, size, prefix, key, raw, maxInt).value, prefix, 16, true, maxInt)
         == ParseSalt(raw, prefix, 16, true, maxInt)
  {
    var s := ParseSalt(raw, prefix, 16, true, maxInt).value;
    var digest := ShaDigest(hash, size, key, s.salt, s.rounds);
    OrderPermutes(size);
    ParsedIsSettled(raw, prefix, 16, true, maxInt);
    ParseOfPrint(s, prefix, 16, true, maxInt, Base64(Reordered(digest, OrderFor(size))));
  }

  lemma Md5SettingStays(hash: Bytes -> Bytes, key: Bytes, raw: Bytes, maxInt: nat)
    requires Gives(hash, 16) && maxInt >= ROUNDS_MAX && Md5Crypt(hash, key, raw, maxInt).Ok?
    ensures ParseSalt(Md5Crypt(hash, key, raw, maxInt).value, "$1$", 8, false, maxInt) == ParseSalt(raw, "$1$", 8, false, maxInt)
  {
    var s := ParseSalt(raw, "$1$", 8, false, maxInt).value;
    var digest := Md5Digest(hash, key, s.salt);
    OrderPermutes(16);
    ParsedIsSettled(raw, "$1$", 8, false, maxInt);
    ParseOfPrint(s, "$1$", 8, false, maxInt, Base64(Reordered(digest, ORDER_16)));
  }

  lemma Md5CryptIsFixpoint(hash: Bytes -> Bytes, key: Bytes, raw: Bytes, maxInt: nat)
    requires Gives(hash, 16) && maxInt >= ROUNDS_MAX && Md5Crypt(hash, key, raw, maxInt).Ok?
    ensures Md5Crypt(hash, key, Md5Crypt(hash, key, raw, maxInt).value, maxInt) == Md5Crypt(hash, key, raw, maxInt)
  {
    Md5SettingStays(hash, key, raw, maxInt);
  }

  // ---- verification --------------------------------------------------------

  datatype Hashes = Hashes(md5: Bytes -> Bytes, sha256: Bytes -> Bytes, sha512: Bytes -> Bytes)

  ghost predicate Sized(h: Hashes) { Gives(h.md5, 16) && Gives(h.sha256, 32) && Gives(h.sha512, 64) }

  // What crypt(3) makes of the password under a setting.
  ghost function Crypt(h: Hashes, key: Bytes, raw: Bytes, maxInt: nat): Result<Bytes, Error>
    requires Sized(h)
  {
    if "$1$" <= raw then Md5Crypt(h.md5, key, raw, maxInt)
    else if "$5$" <= raw then ShaCrypt(h.sha256, 32, "$5$", key, raw, maxInt)
    else if "$6$" <= raw then ShaCrypt(h.sha512, 64, "$6$", key, raw, maxInt)
    else Err(Unsupported)
  }

  ghost function Verify(h: Hashes, stored: Bytes, password: Bytes, maxInt: nat): Result<bool, Error>
    requires Sized(h)
  {
    if stored == [] then Ok(password == [])
    else if "!" <= stored || "*" <= stored then Err(Locked)
    else
      var generated := Crypt(h, password, stored, maxInt);
      if generated.Err? then Err(generated.error) else Ok(generated.value == stored)
  }

  // The setting and the digest behind a crypt string.
  ghost function SettingOf(raw: Bytes, maxInt: nat): Result<Setting, Error> {
    if "$1$" <= raw then ParseSalt(raw, "$1$", 8, false, maxInt)
    else if "$5$" <= raw then ParseSalt(raw, "$5$", 16, true, maxInt)
    else ParseSalt(raw, "$6$", 16, true, maxInt)
  }

  ghost function DigestOf(h: Hashes, key: Bytes, raw: Bytes, maxInt: nat): Bytes
    requires Sized(h) && SettingOf(raw, maxInt).Ok?
  {
    var s := SettingOf(raw, maxInt).value;
    if "$1$" <= raw then Md5Digest(h.md5, key, s.salt)
    else if "$5$" <= raw then ShaDigest(h.sha256, 32, key, s.salt, s.rounds)
    else ShaDigest(h.sha512, 64, key, s.salt, s.rounds)
  }

  lemma AcceptsSha(h: Hashes, size: nat, hash: Bytes -> Bytes, prefix: Bytes, stored: Bytes, password: Bytes, maxInt: nat)
    requires Sized(h) && (if size == 32 then hash == h.sha256 && prefix == "$5$" else size == 64 && hash == h.sha512 && prefix == "$6$")
    requires prefix <= stored
    ensures Verify(h, stored, password, maxInt) == Ok(true) <==>
      var s := ParseSalt(stored, prefix, 16, true, maxInt);
      s.Ok? && stored == prefix + Rounded(s.value) + s.value.salt + "$" + Encoded(ShaDigest(hash, size, password, s.value.salt, s.value.rounds))
  {
    OnePrefix(stored);
  }

  lemma AcceptsMd5(h: Hashes, stored: Bytes, password: Bytes, maxInt: nat)
    requires Sized(h) && "$1$" <= stored
    ensures Verify(h, stored, password, maxInt) == Ok(true) <==>
      var s := ParseSalt(stored, "$1$", 8, false, maxInt);
      s.Ok? && stored == "$1$" + s.value.salt + "$" + Encoded(Md5Digest(h.md5, password, s.value.salt))
  {
    OnePrefix(stored);
    var s := ParseSalt(stored, "$1$", 8, false, maxInt);
    assert Print("$1$", s.value) == "$1$" + s.value.salt + "$";
  }

  // For every stored string: the password is accepted exactly when both are
  // empty, or the stored string is what its own setting makes of the password.
  lemma AcceptsIff(h: Hashes, stored: Bytes, password: Bytes, maxInt: nat)
    requires Sized(h)
    ensures Verify(h, stored, password, maxInt) == Ok(true) <==>
      || (stored == [] && password == [])
      || ("$1$" <= stored
          && var s := ParseSalt(stored, "$1$", 8, false, maxInt);
             s.Ok? && stored == "$1$" + s.value.salt + "$" + Encoded(Md5Digest(h.md5, password, s.value.salt)))
      || ("$5$" <= stored
          && var s := ParseSalt(stored, "$5$", 16, true, maxInt);
             s.Ok? && stored == "$5$" + Rounded(s.value) + s.value.salt + "$"
                                + Encoded(ShaDigest(h.sha256, 32, password, s.value.salt, s.value.rounds)))
      || ("$6$" <= stored
          && var s := ParseSalt(stored, "$6$", 16, true, maxInt);
             s.Ok? && stored == "$6$" + Rounded(s.value) + s.value.salt + "$"
                                + Encoded(ShaDigest(h.sha512, 64, password, s.value.salt, s.value.rounds)))
  {
    OnePrefix(stored);
    if "$1$" <= stored {
      AcceptsMd5(h, stored, password, maxInt);
    } else if "$5$" <= stored {
      AcceptsSha(h, 32, h.sha256, "$5$", stored, password, maxInt);
    } else if "$6$" <= stored {
      AcceptsSha(h, 64, h.sha512, "$6$", stored, password, maxInt);
    }
  }

  lemma OnePrefix(s: Bytes)
    ensures "$1$" <= s ==> !("$5$" <= s) && !("$6$" <= s)
    ensures "$5$" <= s ==> !("$6$" <= s)
    ensures "$1$" <= s || "$5$" <= s || "$6$" <= s ==> s[0] == '$'
    ensures "!" <= s <==> s != [] && s[0] == '!'
    ensures "*" <= s <==> s != [] && s[0] == '*'
  {
    if "$5$" <= s { assert s[1] == '5'; }
    if "$6$" <= s { assert s[1] == '6'; }
    if "$1$" <= s { assert s[1] == '1'; }
  }

  lemma StringPrefix(prefix: Bytes, s: Setting, digest: Bytes)
    requires |prefix| == 3 && prefix[0] == '$' && (|digest| == 16 || |digest| == 32 || |digest| == 64)
    ensures var c := CryptString(prefix, s, digest);
      && prefix <= c && !("!" <= c) && !("*" <= c) && forall other: Bytes :: |other| == 3 && other <= c ==> other == prefix
  {
    var c := CryptString(prefix, s, digest);
    assert c[..3] == prefix;
  }

  lemma VerifyString(prefix: Bytes, s: Setting, p: Bytes, q: Bytes)
    requires (|p| == 16 || |p| == 32 || |p| == 64) && |p| == |q|
    ensures CryptString(prefix, s, p) == CryptString(prefix, s, q) <==> p == q
  {
    if CryptString(prefix, s, p) == CryptString(prefix, s, q) { CryptStringIsInjective(prefix, s, p, q); }
  }

  lemma VerifySha(hash: Bytes -> Bytes, size: nat, prefix: Bytes, q: Bytes, raw: Bytes, p: Bytes, maxInt: nat)
    requires Gives(hash, size) && (size == 32 || size == 64) && maxInt >= ROUNDS_MAX && |prefix| == 3 && prefix[0] == '$'
    requires ShaCrypt(hash, size, prefix, q, raw, maxInt).Ok?
    ensures var s, c := ParseSalt(raw, prefix, 16, true, maxInt).value, ShaCrypt(hash, size, prefix, q, raw, maxInt).value;
      && prefix <= c && !("!" <= c) && !("*" <= c) && (forall other: Bytes :: |other| == 3 && other <= c ==> other == prefix)
      && ShaCrypt(hash, size, prefix, p, c, maxInt).Ok?
      && (ShaCrypt(hash, size, prefix, p, c, maxInt).value == c
          <==> ShaDigest(hash, size, p, s.salt, s.rounds) == ShaDigest(hash, size, q, s.salt, s.rounds))
  {
    var s := ParseSalt(raw, prefix, 16, true, maxInt).value;
    var dp, dq := ShaDigest(hash, size, p, s.salt, s.rounds), ShaDigest(hash, size, q, s.salt, s.rounds);
    ShaSettingStays(hash, size, prefix, q, raw, maxInt);
    StringPrefix(prefix, s, dq);
    VerifyString(prefix, s, dp, dq);
  }

  lemma VerifyMd5(hash: Bytes -> Bytes, q: Bytes, raw: Bytes, p: Bytes, maxInt: nat)
    requires Gives(hash, 16) && maxInt >= ROUNDS_MAX && Md5Crypt(hash, q, raw, maxInt).Ok?
    ensures var s, c := ParseSalt(raw, "$1$", 8, false, maxInt).value, Md5Crypt(hash, q, raw, maxInt).value;
      && "$1$" <= c && !("!" <= c) && !("*" <= c)
      && Md5Crypt(hash, p, c, maxInt).Ok?
      && (Md5Crypt(hash, p, c, maxInt).value == c <==> Md5Digest(hash, p, s.salt) == Md5Digest(hash, q, s.salt))
  {
    var s := ParseSalt(raw, "$1$", 8, false, maxInt).value;
    Md5SettingStays(hash, q, raw, maxInt);
    StringPrefix("$1$", s, Md5Digest(hash, q, s.salt));
    VerifyString("$1$", s, Md5Digest(hash, p, s.salt), Md5Digest(hash, q, s.salt));
  }

  lemma VerdictOn(h: Hashes, c: Bytes, p: Bytes, maxInt: nat, same: bool)
    requires Sized(h) && c != [] && !("!" <= c) && !("*" <= c)
    requires Crypt(h, p, c, maxInt).Ok? && (Crypt(h, p, c, maxInt).value == c <==> same)
    ensures Verify(h, c, p, maxInt) == Ok(same)
  {}

  lemma OnlyPrefix(raw: Bytes, c: Bytes, prefix: Bytes, other: Bytes)
    requires prefix <= raw && prefix <= c && |prefix| == 3 && |other| == 3
    ensures other <= c <==> other <= raw
  {
    if other <= raw || other <= c { assert forall k :: 0 <= k < 3 ==> other[k] == prefix[k]; }
  }

  // The stored string is taken for the same algorithm as its setting.
  lemma SameAlgorithm(h: Hashes, raw: Bytes, c: Bytes, prefix: Bytes, key: Bytes, maxInt: nat)
    requires Sized(h) && prefix <= raw && prefix <= c && |prefix| == 3
    ensures "$1$" <= raw ==> Crypt(h, key, c, maxInt) == Md5Crypt(h.md5, key, c, maxInt)
    ensures !("$1$" <= raw) && "$5$" <= raw ==> Crypt(h, key, c, maxInt) == ShaCrypt(h.sha256, 32, "$5$", key, c, maxInt)
    ensures !("$1$" <= raw) && !("$5$" <= raw) && "$6$" <= raw ==>
              Crypt(h, key, c, maxInt) == ShaCrypt(h.sha512, 64, "$6$", key, c, maxInt)
  {
    OnlyPrefix(raw, c, prefix, "$1$");
    OnlyPrefix(raw, c, prefix, "$5$");
    OnlyPrefix(raw, c, prefix, "$6$");
  }

  ghost predicate AcceptedExactly(h: Hashes, q: Bytes, raw: Bytes, p: Bytes, maxInt: nat)
    requires Sized(h) && Crypt(h, q, raw, maxInt).Ok?
  {
    && SettingOf(raw, maxInt).Ok?
    && Verify(h, Crypt(h, q, raw, maxInt).value, p, maxInt) == Ok(DigestOf(h, p, raw, maxInt) == DigestOf(h, q, raw, maxInt))
  }

  lemma Md5Accepts(h: Hashes, q: Bytes, raw: Bytes, p: Bytes, maxInt: nat)
    requires Sized(h) && maxInt >= ROUNDS_MAX && "$1$" <= raw && Md5Crypt(h.md5, q, raw, maxInt).Ok?
    ensures AcceptedExactly(h, q, raw, p, maxInt)
  {
    var c := Md5Crypt(h.md5, q, raw, maxInt).value;
    VerifyMd5(h.md5, q, raw, p, maxInt);
    SameAlgorithm(h, raw, c, "$1$", p, maxInt);
    VerdictOn(h, c, p, maxInt, DigestOf(h, p, raw, maxInt) == DigestOf(h, q, raw, maxInt));
  }

  lemma Sha256Accepts(h: Hashes, q: Bytes, raw: Bytes, p: Bytes, maxInt: nat)
    requires Sized(h) && maxInt >= ROUNDS_MAX && !("$1$" <= raw) && "$5$" <= raw
    requires ShaCrypt(h.sha256, 32, "$5$", q, raw, maxInt).Ok?
    ensures AcceptedExactly(h, q, raw, p, maxInt)
  {
    var c := ShaCrypt(h.sha256, 32, "$5$", q, raw, maxInt).value;
    VerifySha(h.sha256, 32, "$5$", q, raw, p, maxInt);
    SameAlgorithm(h, raw, c, "$5$", p, maxInt);
    VerdictOn(h, c, p, maxInt, DigestOf(h, p, raw, maxInt) == DigestOf(h, q, raw, maxInt));
  }

  lemma Sha512Accepts(h: Hashes, q: Bytes, raw: Bytes, p: Bytes, maxInt: nat)
    requires Sized(h) && maxInt >= ROUNDS_MAX && !("$1$" <= raw) && !("$5$" <= raw) && "$6$" <= raw
    requires ShaCrypt(h.sha512, 64, "$6$", q, raw, maxInt).Ok?
    ensures AcceptedExactly(h, q, raw, p, maxInt)
  {
    var c := ShaCrypt(h.sha512, 64, "$6$", q, raw, maxInt).value;
    VerifySha(h.sha512, 64, "$6$", q, raw, p, maxInt);
    SameAlgorithm(h, raw, c, "$6$", p, maxInt);
    VerdictOn(h, c, p, maxInt, DigestOf(h, p, raw, maxInt) == DigestOf(h, q, raw, maxInt));
  }

  // A stored string that was made from a password is accepted with exactly the
  // passwords that have the same digest, so always with that password.
  lemma VerifyAcceptsExactly(h: Hashes, q: Bytes, raw: Bytes, p: Bytes, maxInt: nat)
    requires Sized(h) && maxInt >= ROUNDS_MAX && Crypt(h, q, raw, maxInt).Ok?
    ensures SettingOf(raw, maxInt).Ok?
    ensures Verify(h, Crypt(h, q, raw, maxInt).value, p, maxInt) == Ok(DigestOf(h, p, raw, maxInt) == DigestOf(h, q, raw, maxInt))
  {
    if "$1$" <= raw {
      Md5Accepts(h, q, raw, p, maxInt);
    } else if "$5$" <= raw {
      Sha256Accepts(h, q, raw, p, maxInt);
    } else {
      Sha512Accepts(h, q, raw, p, maxInt);
    }
  }

  // ---- the program ---------------------------------------------------------

  method RepeatByteSequence(src: Bytes, size: nat) returns (out: array<Byte>)
    requires src != [] || size == 0
    ensures fresh(out) && out[..] == RepeatTo(src, size)
  {
    out := new Byte[size];
    for i := 0 to size
      invariant forall k :: 0 <= k < i ==> out[k] == src[k % |src|]
    {
      out[i] := src[i % |src|];
    }
  }

  method WriteMix(h: Bytes, even: Bytes, odd: Bytes, length: nat) returns (r: Bytes)
    ensures r == h + Mix(even, odd, length)
  {
    r := h;
    var i := length;
    while i > 0
      invariant r + Mix(even, odd, i) == h + Mix(even, odd, length)
    {
      ghost var before := r;
      if i % 2 == 0 { r := r + even; } else { r := r + odd; }
      Associates(before, if i % 2 == 0 then even else odd, Mix(even, odd, i / 2));
      i := i / 2;
    }
  }

  method WriteTimes(s: Bytes, n: nat) returns (r: Bytes)
    ensures r == Times(s, n)
  {
    r := [];
    for i := 0 to n
      invariant r == Times(s, i)
    {
      r := r + s;
    }
  }

  method RunRounds(hash: Bytes -> Bytes, p: Bytes, s: Bytes, a: Bytes, n: nat) returns (sum: Bytes)
    ensures sum == Rounds(hash, p, s, a, n)
  {
    sum := a;
    for i := 0 to n
      invariant sum == Rounds(hash, p, s, a, i)
    {
      var h: Bytes := [];
      if i % 2 != 0 { h := h + p; } else { h := h + sum; }
      if i % 3 != 0 { h := h + s; }
      if i % 7 != 0 { h := h + p; }
      if i % 2 != 0 { h := h + sum; } else { h := h + p; }
      RoundWritten(p, s, sum, i, h);
      sum := hash(h);
    }
  }

  lemma RoundWritten(p: Bytes, s: Bytes, a: Bytes, i: nat, h: Bytes)
    requires var h1 := [] + (if i % 2 != 0 then p else a);
      var h2 := if i % 3 != 0 then h1 + s else h1;
      var h3 := if i % 7 != 0 then h2 + p else h2;
      h == if i % 2 != 0 then h3 + a else h3 + p
    ensures h == RoundInput(p, s, a, i)
  {}

  method RunShaStart(hash: Bytes -> Bytes, key: Bytes, salt: Bytes) returns (sumA: Bytes)
    requires hash(key + salt + key) != []
    ensures sumA == ShaStart(hash, key, salt)
    ensures var b := hash(key + salt + key); sumA == hash(key + salt + RepeatTo(b, |key|) + Mix(key, b, |key|))
  {
    var sumB := hash(key + salt + key);
    var repeated := RepeatByteSequence(sumB, |key|);
    var h := WriteMix(key + salt + repeated[..], key, sumB, |key|);
    sumA := hash(h);
  }

  method RunSequence(hash: Bytes -> Bytes, s: Bytes, n: nat) returns (r: Bytes)
    requires hash(Times(s, n)) != []
    ensures r == RepeatTo(hash(Times(s, n)), |s|)
  {
    var h := WriteTimes(s, n);
    var out := RepeatByteSequence(hash(h), |s|);
    r := out[..];
  }

  method RunShaDigest(hash: Bytes -> Bytes, size: nat, key: Bytes, salt: Bytes, rounds: nat) returns (d: Bytes)
    requires Gives(hash, size) && size > 0
    ensures d == ShaDigest(hash, size, key, salt, rounds)
    ensures var b := hash(key + salt + key);
      var a := hash(key + salt + RepeatTo(b, |key|) + Mix(key, b, |key|));
      var p := RepeatTo(hash(Times(key, |key|)), |key|);
      var s := RepeatTo(hash(Times(salt, 16 + a[0] as nat)), |salt|);
      d == Rounds(hash, p, s, a, rounds)
  {
    var sumA := RunShaStart(hash, key, salt);
    var seqP := RunSequence(hash, key, |key|);
    var seqS := RunSequence(hash, salt, 16 + sumA[0] as nat);
    d := RunRounds(hash, seqP, seqS, sumA, rounds);
  }

  method RunMd5Digest(hash: Bytes -> Bytes, key: Bytes, salt: Bytes) returns (d: Bytes)
    requires Gives(hash, 16)
    ensures d == Md5Digest(hash, key, salt)
    ensures var b, zero: Bytes := hash(key + salt + key), ['\0'];
      var one := if key == [] then [] else [key[0]];
      d == Rounds(hash, key, salt, hash(key + "$1$" + salt + RepeatTo(b, |key|) + Mix(one, zero, |key|)), 1000)
  {
    var sumB := hash(key + salt + key);
    var repeated := RepeatByteSequence(sumB, |key|);
    var first := if |key| > 0 then key[..1] else [];
    assert first == if key == [] then [] else [key[0]];
    var h := WriteMix(key + "$1$" + salt + repeated[..], first, ['\0'], |key|);
    d := RunRounds(hash, key, salt, hash(h), 1000);
  }

  method PrintCrypt(prefix: Bytes, s: Setting, digest: Bytes) returns (out: Bytes)
    requires |digest| == 16 || |digest| == 32 || |digest| == 64
    ensures out == CryptString(prefix, s, digest)
    ensures out == prefix + (if s.explicit then "rounds=" + Itoa(s.rounds) + "$" else "") + s.salt + "$" + Encoded(digest)
  {
    OrderPermutes(|digest|);
    var order := Reordered(digest, OrderFor(|digest|));
    var encoded := CryptBase64(order);
    out := prefix;
    if s.explicit {
      out := out + "rounds=";
      out := out + Itoa(s.rounds);
      out := out + "$";
    }
    out := out + s.salt;
    out := out + "$";
    assert out == Print(prefix, s);
    out := out + encoded[..];
  }

  method RunShaCrypt(hash: Bytes -> Bytes, size: nat, prefix: Bytes, key: Bytes, raw: Bytes, maxInt: nat) returns (r: Result<Bytes, Error>)
    requires Gives(hash, size) && (size == 32 || size == 64)
    ensures r == ShaCrypt(hash, size, prefix, key, raw, maxInt)
  {
    var s := ParseSalt(raw, prefix, 16, true, maxInt);
    if s.Err? { return Err(s.error); }
    var digest := RunShaDigest(hash, size, key, s.value.salt, s.value.rounds);
    var out := PrintCrypt(prefix, s.value, digest);
    r := Ok(out);
  }

  method RunMd5Crypt(hash: Bytes -> Bytes, key: Bytes, raw: Bytes, maxInt: nat) returns (r: Result<Bytes, Error>)
    requires Gives(hash, 16)
    ensures r == Md5Crypt(hash, key, raw, maxInt)
  {
    var s := ParseSalt(raw, "$1$", 8, false, maxInt);
    if s.Err? { return Err(s.error); }
    var digest := RunMd5Digest(hash, key, s.value.salt);
    var out := PrintCrypt("$1$", s.value, digest);
    r := Ok(out);
  }

  method VerifyUnixCrypt(h: Hashes, stored: Bytes, password: Bytes, maxInt: nat) returns (r: Result<bool, Error>)
    requires Sized(h)
    ensures r == Verify(h, stored, password, maxInt)
    ensures stored == [] ==> r == Ok(password == [])
    ensures stored != [] && (stored[0] == '!' || stored[0] == '*') ==> r == Err(Locked)
    ensures stored != [] && stored[0] != '!' && stored[0] != '*' && !("$1$" <= stored) && !("$5$" <= stored) && !("$6$" <= stored) ==>
      r == Err(Unsupported)
    ensures "$1$" <= stored ==>
      var s := ParseSalt(stored, "$1$", 8, false, maxInt);
      s.Ok? && r == Ok(stored == Print("$1$", s.value) + Encoded(Md5Digest(h.md5, password, s.value.salt)))
    ensures "$5$" <= stored ==>
      var s := ParseSalt(stored, "$5$", 16, true, maxInt);
      r == if s.Err? then Err(s.error)
           else Ok(stored == Print("$5$", s.value) + Encoded(ShaDigest(h.sha256, 32, password, s.value.salt, s.value.rounds)))
    ensures "$6$" <= stored ==>
      var s := ParseSalt(stored, "$6$", 16, true, maxInt);
      r == if s.Err? then Err(s.error)
           else Ok(stored == Print("$6$", s.value) + Encoded(ShaDigest(h.sha512, 64, password, s.value.salt, s.value.rounds)))
  {
    OnePrefix(stored);
    if stored == [] { return Ok(password == []); }
    if "!" <= stored || "*" <= stored { return Err(Locked); }
    var generated: Result<Bytes, Error>;
    if "$1$" <= stored {
      generated := RunMd5Crypt(h.md5, password, stored, maxInt);
    } else if "$5$" <= stored {
      generated := RunShaCrypt(h.sha256, 32, "$5$", password, stored, maxInt);
    } else if "$6$" <= stored {
      generated := RunShaCrypt(h.sha512, 64, "$6$", password, stored, maxInt);
    } else {
      return Err(Unsupported);
    }
    if generated.Err? { return Err(generated.error); }
    r := Ok(generated.value == stored);
  }
}
