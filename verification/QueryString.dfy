/** parse_url_query_to_json of src/components/api/api_documents.c, lines 51-111. A byte is the character with its
    code; a C string has no character 0. */
module QueryString {
  import opened Json
  import opened Options

  const NUL := 0 as char

  /** strchr: the position of the first c, or the length. */
  function Find(s: string, c: char): (n: nat)
    ensures n <= |s| && (n < |s| ==> s[n] == c) && c !in s[..n]
  {
    if s == [] || s[0] == c then 0 else Find(s[1..], c) + 1
  }

  lemma {:induction false} FindIs(s: string, c: char, n: nat)
    requires n <= |s| && c !in s[..n] && (n < |s| ==> s[n] == c)
    ensures Find(s, c) == n
  {
    if n > 0 {
      assert s[..n] == [s[0]] + s[1..][..n - 1];
      FindIs(s[1..], c, n - 1);
    }
  }

  // ----- strtol(hex, &endptr, 16) on two characters

  function HexDigit(c: char): Option<nat> {
    if '0' <= c <= '9' then Some(c as int - '0' as int)
    else if 'a' <= c <= 'f' then Some(c as int - 'a' as int + 10)
    else if 'A' <= c <= 'F' then Some(c as int - 'A' as int + 10)
    else None
  }

  predicate IsSpace(c: char) { c == ' ' || 9 <= c as int <= 13 }

  /** The byte the two characters stand for, if strtol consumes both: it also takes white space or a sign before
      one digit. */
  function HexByte(c: char, d: char): (b: Option<char>)
    ensures b.Some? ==> b.value as int < 256
  {
    var low := HexDigit(d);
    if low.None? then None
    else if HexDigit(c).Some? then Some((16 * HexDigit(c).value + low.value) as char)
    else if IsSpace(c) || c == '+' then Some(low.value as char)
    else if c == '-' then Some(((256 - low.value) % 256) as char)
    else None
  }

  // ----- The reference for those: strtol with base 16 on any string

  /** value is what strtol returns, and end how many characters it consumes. */
  datatype Number = Number(value: int, end: nat)

  function Spaces(s: string): (n: nat)
    ensures n <= |s|
  {
    if s == [] || !IsSpace(s[0]) then 0 else 1 + Spaces(s[1..])
  }

  function Digits(s: string): (n: nat)
    ensures n <= |s|
  {
    if s == [] || HexDigit(s[0]).None? then 0 else 1 + Digits(s[1..])
  }

  /** The number that the first n characters, all of them digits, denote. */
  function HexValue(s: string, n: nat): nat
    requires n <= Digits(s)
    decreases n
  {
    if n == 0 then 0 else DigitIn(s, n - 1) + 16 * HexValue(s, n - 1)
  }

  function DigitIn(s: string, i: nat): nat
    requires i < Digits(s)
  {
    if i == 0 then HexDigit(s[0]).value else DigitIn(s[1..], i - 1)
  }

  /** White space, a sign, 0x before a digit, and digits; nothing is consumed when there are none. */
  function Strtol(s: string): Number {
    var i := Spaces(s);
    var j := if i < |s| && (s[i] == '+' || s[i] == '-') then i + 1 else i;
    var prefix := j + 2 < |s| && s[j] == '0' && (s[j + 1] == 'x' || s[j + 1] == 'X') && HexDigit(s[j + 2]).Some?;
    var k := if prefix then j + 2 else j;
    var n := Digits(s[k..]);
    var value: int := HexValue(s[k..], n);
    if n == 0 then Number(0, 0) else Number(if i < j && s[i] == '-' then -value else value, k + n)
  }

  lemma OneDigit(d: char)
    ensures Digits([]) == 0 && Digits([d]) == if HexDigit(d).Some? then 1 else 0
    ensures HexDigit(d).Some? ==> HexValue([d], 1) == HexDigit(d).value
  {
    assert [d][1..] == [];
  }

  lemma TwoDigits(c: char, d: char)
    ensures Digits([c, d]) == if HexDigit(c).None? then 0 else if HexDigit(d).None? then 1 else 2
    ensures HexDigit(c).Some? && HexDigit(d).Some? ==>
      HexValue([c, d], 2) == 16 * HexDigit(c).value + HexDigit(d).value
  {
    assert [c, d][1..] == [d];
    OneDigit(d);
    if HexDigit(c).Some? && HexDigit(d).Some? {
      assert DigitIn([c, d], 1) == DigitIn([d], 0) && HexValue([c, d], 1) == HexDigit(c).value;
    }
  }

  lemma LeadingSpaces(c: char, d: char)
    ensures Spaces([c, d]) == if !IsSpace(c) then 0 else if !IsSpace(d) then 1 else 2
  {
    assert [c, d][1..] == [d] && [d][1..] == [];
    assert Spaces([d]) == if IsSpace(d) then 1 else 0;
  }

  /** What strtol makes of two characters: two digits, or one after white space or a sign, are all consumed. */
  lemma StrtolOfTwo(c: char, d: char)
    ensures var number := Strtol([c, d]);
            && (number.end == 2 <==>
                  HexDigit(d).Some? && (HexDigit(c).Some? || IsSpace(c) || c == '+' || c == '-'))
            && (number.end == 2 ==>
                  number.value == if HexDigit(c).Some? then 16 * HexDigit(c).value + HexDigit(d).value
                                  else if c == '-' then 0 - HexDigit(d).value else HexDigit(d).value)
  {
    var s := [c, d];
    assert s[0..] == s && s[1..] == [d] && s[2..] == [];
    assert HexDigit(c).Some? ==> !IsSpace(c) && c != '+' && c != '-';
    assert HexDigit(d).Some? ==> !IsSpace(d);
    OneDigit(d);
    TwoDigits(c, d);
    LeadingSpaces(c, d);
    hide Digits, Spaces, HexValue, DigitIn, HexDigit, IsSpace;
  }

  lemma Reduced(n: int)
    requires 0 <= n < 256
    ensures n % 256 == n && -n % 256 == (256 - n) % 256
  {
  }

  /** The byte is the one strtol finds, reduced to 8 bits, when it consumes both characters. */
  lemma HexByteIsStrtol(c: char, d: char)
    ensures HexByte(c, d).Some? <==> Strtol([c, d]).end == 2
    ensures HexByte(c, d).Some? ==> HexByte(c, d).value as int == Strtol([c, d]).value % 256
  {
    StrtolOfTwo(c, d);
    hide Strtol;
    if HexByte(c, d).Some? {
      Reduced(HexDigit(d).value);
      if HexDigit(c).Some? {
        Reduced(16 * HexDigit(c).value + HexDigit(d).value);
      }
    }
  }

  function Decoded(v: string): (r: string)
    ensures |r| <= |v|
  {
    if v == [] then []
    else if v[0] == '%' && |v| > 2 && HexByte(v[1], v[2]).Some? then [HexByte(v[1], v[2]).value] + Decoded(v[3..])
    else [if v[0] == '+' then ' ' else v[0]] + Decoded(v[1..])
  }

  /** One round of the loop. */
  lemma DecodedFrom(v: string, i: nat)
    requires i < |v|
    ensures var b := if i + 2 < |v| then HexByte(v[i + 1], v[i + 2]) else None;
            Decoded(v[i..]) == if v[i] == '%' && b.Some? then [b.value] + Decoded(v[i + 3..])
                               else [if v[i] == '+' then ' ' else v[i]] + Decoded(v[i + 1..])
  {
    assert v[i..][1..] == v[i + 1..];
    if i + 2 < |v| {
      assert v[i..][3..] == v[i + 3..];
    }
  }

  /** Text without '%' and '+' stays as it is, */
  lemma {:induction false} DecodedPlain(plain: string, rest: string)
    requires '%' !in plain && '+' !in plain
    ensures Decoded(plain + rest) == plain + Decoded(rest)
  {
    hide HexByte;
    if plain == [] {
      assert plain + rest == rest;
    } else {
      assert (plain + rest)[1..] == plain[1..] + rest;
      DecodedPlain(plain[1..], rest);
    }
  }

  /** and so does a '%' that is not followed by two characters which strtol consumes; a '+' is always a space. */
  lemma DecodedLiteral(c: char, rest: string)
    requires c == '%' ==> |rest| < 2 || Strtol([rest[0], rest[1]]).end != 2
    ensures Decoded([c] + rest) == [if c == '+' then ' ' else c] + Decoded(rest)
  {
    hide *;
    var v := [c] + rest;
    assert |rest| >= 2 ==> v[1] == rest[0] && v[2] == rest[1];
    if |rest| >= 2 {
      HexByteIsStrtol(v[1], v[2]);
    }
    assert v[0..] == v && v[1..] == rest;
    DecodedFrom(v, 0);
  }

  /** The body of the loop of lines 79-97: write one byte at position length and say where to read on. */
  method DecodeOne(value: string, i: nat, decoded: array<char>, length: nat) returns (next: nat)
    requires i < |value| && length < decoded.Length
    modifies decoded
    ensures i < next <= |value| && Decoded(value[i..]) == [decoded[length]] + Decoded(value[next..])
    ensures decoded[..length + 1] == old(decoded[..length]) + [decoded[length]]
  {
    DecodedFrom(value, i);
    hide Decoded, HexByte;
    next := i + 1;
    if value[i] == '%' && i + 2 < |value| {
      var byte := HexByte(value[i + 1], value[i + 2]);
      if byte.Some? {
        decoded[length] := byte.value;
        next := i + 3;
      } else {
        decoded[length] := value[i];
      }
    } else if value[i] == '+' {
      decoded[length] := ' ';
    } else {
      decoded[length] := value[i];
    }
  }

  lemma MoveOver(done: string, c: char, rest: string)
    ensures done + ([c] + rest) == (done + [c]) + rest
  {
  }

  /** Lines 78-98: the value decoded into a buffer of its own length and a terminator. */
  method DecodeInto(value: string, decoded: array<char>)
    requires decoded.Length == |value| + 1
    modifies decoded
    ensures |Decoded(value)| < decoded.Length
    ensures decoded[..|Decoded(value)|] == Decoded(value) && decoded[|Decoded(value)|] == NUL
  {
    assert value[|value|..] == [] && Decoded([]) == [] && value[0..] == value;
    hide HexByte, Decoded;
    ghost var done: string := [];
    var length, i := 0, 0;
    while i < |value|
      invariant 0 <= length <= i <= |value|
      invariant length == |done| && decoded[..length] == done
      invariant Decoded(value) == done + Decoded(value[i..])
    {
      i := DecodeOne(value, i, decoded, length);
      MoveOver(done, decoded[length], Decoded(value[i..]));
      done := done + [decoded[length]];
      length := length + 1;
    }
    assert done + [] == done;
    decoded[length] := NUL;
  }

  /** Lines 75-100: the decoded value, read back as a C string. */
  method Decode(value: string) returns (text: string)
    ensures text == Decoded(value)[..Find(Decoded(value), NUL)]
    ensures |text| <= |value|
  {
    var decoded := new char[|value| + 1];
    DecodeInto(value, decoded);
    ghost var all := Decoded(value);
    var n := 0;
    while decoded[n] != NUL
      invariant 0 <= n <= |all| < decoded.Length && decoded[|all|] == NUL
      invariant NUL !in decoded[..n]
      decreases |all| - n
    {
      n := n + 1;
    }
    text := decoded[..n];
    assert text == all[..n] && (n < |all| ==> all[n] == decoded[..|all|][n]);
    FindIs(all, NUL, n);
  }

  // ----- The pairs

  /** What strtok skips before a token. */
  function SkipAmps(s: string): (r: string)
    ensures |r| <= |s| && (r != [] ==> r[0] != '&')
  {
    if s != [] && s[0] == '&' then SkipAmps(s[1..]) else s
  }

  function Text(value: string): string { Decoded(value)[..Find(Decoded(value), NUL)] }

  /** The stored text is the decoded value up to its first NUL, as a C string is. */
  lemma TextEndsAtNul(value: string, before: string, after: string)
    ensures NUL !in Text(value) && Text(value) <= Decoded(value)
    ensures NUL !in before && Decoded(value) == before + ([NUL] + after) ==> Text(value) == before
    ensures NUL !in Decoded(value) ==> Text(value) == Decoded(value)
  {
    var all := Decoded(value);
    if NUL !in before && all == before + ([NUL] + after) {
      assert all[..|before|] == before && all[|before|] == NUL;
      FindIs(all, NUL, |before|);
    }
    if NUL !in all {
      FindIs(all, NUL, |all|);
    }
  }

  /** The object after one token: its key is everything before the first '=', undecoded. */
  function WithPair(members: seq<Member<string>>, token: string): seq<Member<string>> {
    var equals := Find(token, '=');
    if equals == |token| then members else Put(members, token[..equals], Text(token[equals + 1..]))
  }

  function WithPairs(members: seq<Member<string>>, s: string): seq<Member<string>>
    decreases |s|
  {
    var rest := SkipAmps(s);
    if rest == [] then members
    else
      var end := Find(rest, '&');
      assert end > 0;
      WithPairs(WithPair(members, rest[..end]), rest[end..])
  }

  method FindIn(s: string, c: char) returns (n: nat)
    ensures n == Find(s, c)
  {
    n := 0;
    while n < |s| && s[n] != c
      invariant n <= |s| && c !in s[..n]
    {
      n := n + 1;
    }
    FindIs(s, c, n);
  }

  lemma {:induction false} SkipsTo(s: string, i: nat)
    requires i <= |s| && (forall j :: 0 <= j < i ==> s[j] == '&') && (i < |s| ==> s[i] != '&')
    ensures SkipAmps(s) == s[i..]
  {
    if i > 0 {
      SkipsTo(s[1..], i - 1);
    }
  }

  /** strtok on the rest of its buffer: the next token, or nothing, and what is left. */
  method NextToken(s: string) returns (token: Option<string>, rest: string)
    ensures SkipAmps(s) == [] ==> token == None
    ensures var t := SkipAmps(s); t != [] ==> token == Some(t[..Find(t, '&')]) && rest == t[Find(t, '&')..]
    ensures |rest| <= |s| && (token.Some? ==> |rest| < |s|)
  {
    var i := 0;
    while i < |s| && s[i] == '&'
      invariant i <= |s| && forall j :: 0 <= j < i ==> s[j] == '&'
    {
      i := i + 1;
    }
    SkipsTo(s, i);
    if i == |s| {
      return None, [];
    }
    var end := FindIn(s[i..], '&');
    return Some(s[i..][..end]), s[i..][end..];
  }

  /** The whole parser: no object for an empty query. */
  method Parse(query: string) returns (result: Option<seq<Member<string>>>)
    ensures result == if query == [] then None else Some(WithPairs([], query))
  {
    if query == [] {
      return None;
    }
    var parsed := new Object<string>([]);
    var pair, rest := NextToken(query);
    while pair.Some?
      invariant pair.Some? ==> WithPairs([], query) == WithPairs(WithPair(parsed.members, pair.value), rest)
      invariant pair.None? ==> WithPairs([], query) == parsed.members
      decreases pair.Some?, |rest|
    {
      var token := pair.value;
      var equals := FindIn(token, '=');
      if equals < |token| {
        var value := Decode(token[equals + 1..]);
        parsed.Set(token[..equals], value);
      }
      pair, rest := NextToken(rest);
    }
    return Some(parsed.members);
  }

  // ----- Round trip, for every way to encode

  /** One encoded byte: as itself, as %XX with digits of either case (section 2.1 of RFC 3986), or a space as '+'. */
  datatype Code = Plain(c: char) | Hex(c: char, upperHigh: bool, upperLow: bool) | Plus

  /** No byte is NUL, and those with a meaning of their own are not left plain. */
  predicate Sound(code: Code) {
    match code
    case Plain(c) => c != '%' && c != '+' && c != '&' && c != NUL
    case Hex(c, _, _) => 0 < c as int < 256
    case Plus => true
  }

  function Digit(n: nat, upper: bool): (c: char)
    requires n < 16
    ensures HexDigit(c) == Some(n)
  {
    if n < 10 then ('0' as int + n) as char
    else if upper then ('A' as int + n - 10) as char
    else ('a' as int + n - 10) as char
  }

  function RenderCode(code: Code): (s: string)
    requires Sound(code)
    ensures s != [] && '&' !in s
  {
    match code
    case Plain(c) => [c]
    case Hex(c, upperHigh, upperLow) => ['%', Digit(c as int / 16, upperHigh), Digit(c as int % 16, upperLow)]
    case Plus => ['+']
  }

  function ByteOf(code: Code): char { if code.Plus? then ' ' else code.c }

  function Rendered(codes: seq<Code>): (s: string)
    requires forall code <- codes :: Sound(code)
    ensures '&' !in s
  {
    if codes == [] then [] else RenderCode(codes[0]) + Rendered(codes[1..])
  }

  function Meaning(codes: seq<Code>): (s: string)
    ensures |s| == |codes|
  {
    if codes == [] then [] else [ByteOf(codes[0])] + Meaning(codes[1..])
  }

  lemma DecodeCode(code: Code, rest: string)
    requires Sound(code)
    ensures Decoded(RenderCode(code) + rest) == [ByteOf(code)] + Decoded(rest)
  {
    var s := RenderCode(code) + rest;
    assert s[|RenderCode(code)|..] == rest;
    if code.Hex? {
      var n := code.c as int;
      assert 16 * (n / 16) + n % 16 == n;
      assert HexByte(s[1], s[2]) == Some(code.c);
    }
  }

  /** However a value is encoded, decoding it gives the value. */
  lemma {:induction false} DecodeRendered(codes: seq<Code>)
    requires forall code <- codes :: Sound(code)
    ensures Decoded(Rendered(codes)) == Meaning(codes) && NUL !in Meaning(codes)
  {
    if codes != [] {
      assert codes[0] in codes && forall code <- codes[1..] :: code in codes;
      DecodeRendered(codes[1..]);
      DecodeCode(codes[0], Rendered(codes[1..]));
    }
  }

  datatype Pair = Pair(key: string, codes: seq<Code>)

  predicate Fair(p: Pair) {
    '&' !in p.key && '=' !in p.key && NUL !in p.key && forall code <- p.codes :: Sound(code)
  }

  function RenderPair(p: Pair): (s: string)
    requires Fair(p)
    ensures s != [] && '&' !in s
  {
    p.key + ['='] + Rendered(p.codes)
  }

  function RenderQuery(pairs: seq<Pair>): string
    requires forall p <- pairs :: Fair(p)
  {
    if pairs == [] then []
    else if |pairs| == 1 then RenderPair(pairs[0])
    else RenderPair(pairs[0]) + (['&'] + RenderQuery(pairs[1..]))
  }

  function Meant(p: Pair): Member<string> { Member(p.key, Meaning(p.codes)) }

  function MembersOf(pairs: seq<Pair>): seq<Member<string>> {
    seq(|pairs|, i requires 0 <= i < |pairs| => Meant(pairs[i]))
  }

  lemma PairParsed(members: seq<Member<string>>, p: Pair)
    requires Fair(p)
    ensures WithPair(members, RenderPair(p)) == Put(members, p.key, Meaning(p.codes))
  {
    var token := RenderPair(p);
    FindIs(token, '=', |p.key|);
    assert token[..|p.key|] == p.key && token[|p.key| + 1..] == Rendered(p.codes);
    DecodeRendered(p.codes);
    FindIs(Meaning(p.codes), NUL, |p.codes|);
    assert Text(Rendered(p.codes)) == Meaning(p.codes);
  }

  /** The first token of a rendered query is its first pair. */
  lemma FirstToken(members: seq<Member<string>>, token: string, rest: string)
    requires token != [] && '&' !in token && (rest != [] ==> rest[0] == '&')
    ensures WithPairs(members, token + rest) == WithPairs(WithPair(members, token), rest)
  {
    var s := token + rest;
    assert s[0] == token[0] && token[0] in token;
    assert SkipAmps(s) == s;
    FindIs(s, '&', |token|);
    assert s[..|token|] == token && s[|token|..] == rest;
  }

  lemma SkipOnce(members: seq<Member<string>>, s: string, t: string)
    requires SkipAmps(s) == SkipAmps(t)
    ensures WithPairs(members, s) == WithPairs(members, t)
  {
  }

  lemma FirstPair(members: seq<Member<string>>, p: Pair, others: seq<Pair>)
    requires Fair(p) && (forall q <- others :: Fair(q)) && forall q <- [p] + others :: Fair(q)
    ensures WithPairs(members, RenderQuery([p] + others)) ==
            WithPairs(Put(members, p.key, Meaning(p.codes)), RenderQuery(others))
  {
    assert ([p] + others)[1..] == others;
    var token, rest := RenderPair(p), if others == [] then [] else ['&'] + RenderQuery(others);
    assert RenderQuery([p] + others) == token + rest by {
      if others == [] {
        assert token + [] == token;
      }
    }
    assert rest != [] ==> rest[0] == '&' && rest[1..] == RenderQuery(others);
    assert SkipAmps(rest) == SkipAmps(RenderQuery(others));
    hide RenderPair, WithPair, SkipAmps, WithPairs, RenderQuery, Put;
    PairParsed(members, p);
    FirstToken(members, token, rest);
    SkipOnce(Put(members, p.key, Meaning(p.codes)), rest, RenderQuery(others));
  }

  /** The members after putting in one pair after the other. */
  function PutAll(members: seq<Member<string>>, pairs: seq<Pair>): seq<Member<string>>
    decreases |pairs|
  {
    if pairs == [] then members else PutAll(Put(members, pairs[0].key, Meaning(pairs[0].codes)), pairs[1..])
  }

  lemma {:induction false} PairsPut(members: seq<Member<string>>, pairs: seq<Pair>)
    requires forall p <- pairs :: Fair(p)
    ensures WithPairs(members, RenderQuery(pairs)) == PutAll(members, pairs)
    decreases |pairs|
  {
    if pairs != [] {
      hide WithPairs, RenderQuery, Fair, Put;
      var p, others := pairs[0], pairs[1..];
      assert pairs == [p] + others;
      assert forall q <- others :: q in pairs;
      FirstPair(members, p, others);
      PairsPut(Put(members, p.key, Meaning(p.codes)), others);
    } else {
      assert WithPairs(members, []) == members;
    }
  }

  lemma KeyIsNew(members: seq<Member<string>>, m: Member<string>, others: seq<Member<string>>)
    requires DistinctKeys(members + [m] + others)
    ensures forall n <- members :: n.key != m.key
  {
    var all := members + [m] + others;
    forall n | n in members ensures n.key != m.key {
      var i :| 0 <= i < |members| && members[i] == n;
      assert all[i] == n && all[|members|] == m;
    }
  }

  lemma {:induction false} DistinctPairsPut(members: seq<Member<string>>, pairs: seq<Pair>)
    requires DistinctKeys(members + MembersOf(pairs))
    ensures PutAll(members, pairs) == members + MembersOf(pairs)
    decreases |pairs|
  {
    if pairs == [] {
      assert MembersOf(pairs) == [];
    } else {
      hide DistinctKeys;
      var p, others := pairs[0], pairs[1..];
      assert MembersOf(pairs) == [Meant(p)] + MembersOf(others);
      assert members + MembersOf(pairs) == members + [Meant(p)] + MembersOf(others);
      KeyIsNew(members, Meant(p), MembersOf(others));
      PutAt(members, p.key, Meaning(p.codes), |members|);
      DistinctPairsPut(members + [Meant(p)], others);
    }
  }

  /** Any pairs with distinct keys, however their values are encoded, come back from the query that renders them, in
      order and with the values meant; Parse gives an object for them exactly when there is at least one. */
  lemma QueryRoundTrip(pairs: seq<Pair>)
    requires (forall p <- pairs :: Fair(p)) && DistinctKeys(MembersOf(pairs))
    ensures WithPairs([], RenderQuery(pairs)) == MembersOf(pairs)
    ensures RenderQuery(pairs) == [] <==> pairs == []
  {
    assert [] + MembersOf(pairs) == MembersOf(pairs);
    PairsPut([], pairs);
    DistinctPairsPut([], pairs);
    if pairs != [] {
      assert pairs[0] in pairs;
    }
  }

  /** What the last pair with this key means. */
  function LastMeaning(pairs: seq<Pair>, key: string): Option<string> {
    if pairs == [] then None
    else if pairs[|pairs| - 1].key == key then Some(Meaning(pairs[|pairs| - 1].codes))
    else LastMeaning(pairs[..|pairs| - 1], key)
  }

  lemma {:induction false} PutAllNext(members: seq<Member<string>>, pairs: seq<Pair>)
    requires pairs != []
    ensures var last := pairs[|pairs| - 1];
            PutAll(members, pairs) == Put(PutAll(members, pairs[..|pairs| - 1]), last.key, Meaning(last.codes))
    decreases |pairs|
  {
    hide Put;
    if |pairs| > 1 {
      assert pairs[1..][..|pairs| - 2] == pairs[..|pairs| - 1][1..];
      PutAllNext(Put(members, pairs[0].key, Meaning(pairs[0].codes)), pairs[1..]);
    } else {
      assert pairs[1..] == [] && pairs[..0] == [];
    }
  }

  lemma {:induction false} PutAllGet(pairs: seq<Pair>, key: string)
    ensures Get(PutAll([], pairs), key) == LastMeaning(pairs, key) && DistinctKeys(PutAll([], pairs))
    decreases |pairs|
  {
    if pairs != [] {
      var front, last := pairs[..|pairs| - 1], pairs[|pairs| - 1];
      PutAllGet(front, key);
      PutAllNext([], pairs);
      hide Put, DistinctKeys;
      GetPut(PutAll([], front), last.key, Meaning(last.codes));
    }
  }

  /** Of pairs with one key the last one counts, and no key is repeated. */
  lemma LastPairCounts(pairs: seq<Pair>, key: string)
    requires forall p <- pairs :: Fair(p)
    ensures var parsed := WithPairs([], RenderQuery(pairs));
            Get(parsed, key) == LastMeaning(pairs, key) && DistinctKeys(parsed)
  {
    PairsPut([], pairs);
    PutAllGet(pairs, key);
  }

  // ----- Ampersands and tokens without a value

  lemma {:induction false} SkipAmpsOf(a: string, b: string)
    ensures SkipAmps(a + (['&'] + b)) == if SkipAmps(a) == [] then SkipAmps(b) else SkipAmps(a) + (['&'] + b)
  {
    if a == [] {
      assert a + (['&'] + b) == ['&'] + b && (['&'] + b)[1..] == b;
    } else {
      assert (a + (['&'] + b))[1..] == a[1..] + (['&'] + b);
      SkipAmpsOf(a[1..], b);
    }
  }

  /** What stands before an ampersand is parsed first, whatever it is, and what follows it then. */
  lemma {:induction false} ParsedInTurn(members: seq<Member<string>>, a: string, b: string)
    ensures WithPairs(members, a + (['&'] + b)) == WithPairs(WithPairs(members, a), b)
    decreases |a|
  {
    SkipAmpsOf(a, b);
    var rest := SkipAmps(a);
    if rest != [] {
      var end := Find(rest, '&');
      var all := rest + (['&'] + b);
      assert rest[..end] == all[..end] && all[end] == '&';
      FindIs(all, '&', end);
      assert end > 0 && all[end..] == rest[end..] + (['&'] + b);
      ParsedInTurn(WithPair(members, rest[..end]), rest[end..], b);
    }
  }

  lemma LoneToken(members: seq<Member<string>>, token: string)
    requires '&' !in token && '=' !in token
    ensures WithPairs(members, token) == members
  {
    assert token + [] == token && WithPairs(members, []) == members;
    if token != [] {
      FirstToken(members, token, []);
      FindIs(token, '=', |token|);
    }
  }

  /** A token without an equals sign changes nothing, wherever it stands between ampersands. */
  lemma TokenWithoutValue(members: seq<Member<string>>, before: string, token: string, after: string)
    requires '&' !in token && '=' !in token
    ensures WithPairs(members, before + (['&'] + (token + (['&'] + after)))) ==
            WithPairs(members, before + (['&'] + after))
    ensures WithPairs(members, before + (['&'] + token)) == WithPairs(members, before)
    ensures WithPairs(members, token + (['&'] + after)) == WithPairs(members, after)
  {
    hide WithPairs;
    ParsedInTurn(members, before, token + (['&'] + after));
    ParsedInTurn(WithPairs(members, before), token, after);
    ParsedInTurn(members, before, after);
    ParsedInTurn(members, before, token);
    ParsedInTurn(members, token, after);
    LoneToken(members, token);
    LoneToken(WithPairs(members, before), token);
  }
}
