/** The address syntax check: `re.match(r"^0x[a-fA-F0-9]{40}$", address)`.
    The pattern is matched piece by piece, as the regular expression engine does,
    and the result is then characterised without reference to the matcher. */
module Address {
  import opened Wrappers

  /** Number of hexadecimal digits after the prefix. */
  const HexLength := 40

  /** The character class `[a-fA-F0-9]`. */
  predicate IsHexDigit(c: char)
    ensures IsHexDigit(c) ==> c != '\n' && c != 'x'
  {
    '0' <= c <= '9' || 'a' <= c <= 'f' || 'A' <= c <= 'F'
  }

  /** The class is exactly the twenty-two characters it lists. */
  lemma IsHexDigitIff(c: char)
    ensures IsHexDigit(c) <==> c in "0123456789abcdefABCDEF"
  {
  }

  ghost predicate AllHex(s: string) {
    forall i :: 0 <= i < |s| ==> IsHexDigit(s[i])
  }

  /** `[a-fA-F0-9]{n}`: consumes exactly `n` hex digits and yields the unconsumed rest. */
  function MatchHexDigits(s: string, n: nat): (r: Option<string>)
    ensures r.Some? ==> n <= |s| && r.value == s[n..]
    decreases n
  {
    if n == 0 then Some(s)
    else if |s| > 0 && IsHexDigit(s[0]) then MatchHexDigits(s[1..], n - 1)
    else None
  }

  /** Python's `$` without MULTILINE: the end of the string, or just before a
      newline that is the last character. */
  predicate MatchesEnd(rest: string)
    ensures MatchesEnd(rest) <==> |rest| <= 1 && forall i :: 0 <= i < |rest| ==> rest[i] == '\n'
  {
    rest == "" || rest == "\n"
  }

  /** `is_valid_eth_address`: `^` anchors at the start (as `re.match` does anyway),
      then the literal `0x`, forty hex digits and `$`. */
  predicate IsValidEthAddress(address: string)
    ensures IsValidEthAddress(address) ==> |address| >= 2 && address[..2] == "0x"
    ensures IsValidEthAddress(address) ==> |address| == 2 + HexLength || |address| == 3 + HexLength
  {
    && |address| >= 2 && address[0] == '0' && address[1] == 'x'
    && match MatchHexDigits(address[2..], HexLength)
       case None => false
       case Some(rest) => MatchesEnd(rest)
  }

  /** The matcher for `{n}` succeeds exactly when the first `n` characters are hex
      digits, and it leaves the rest untouched. */
  lemma {:induction false} MatchHexDigitsIff(s: string, n: nat)
    ensures MatchHexDigits(s, n) == if n <= |s| && AllHex(s[..n]) then Some(s[n..]) else None
    decreases n
  {
    if n > 0 {
      if |s| > 0 && IsHexDigit(s[0]) {
        MatchHexDigitsIff(s[1..], n - 1);
        assert n <= |s| ==> s[1..][..n - 1] == s[1..n];
        assert n <= |s| ==> (AllHex(s[..n]) <==> AllHex(s[1..][..n - 1]));
      } else if |s| > 0 {
        assert n <= |s| ==> !IsHexDigit(s[..n][0]);
      }
    }
  }

  /** The validity rule stated without the matcher: the lower-case prefix `0x`,
      then characters 2..41 are all hex digits, and nothing follows but at most
      one final newline. */
  lemma IsValidEthAddressIff(address: string)
    ensures IsValidEthAddress(address) <==>
      && (|address| == 42 || (|address| == 43 && address[42] == '\n'))
      && address[..2] == "0x"
      && forall i :: 2 <= i < 42 ==> IsHexDigit(address[i])
  {
    if |address| >= 2 {
      var tail := address[2..];
      MatchHexDigitsIff(tail, HexLength);
      if |tail| >= HexLength {
        assert AllHex(tail[..HexLength]) <==> forall i :: 2 <= i < 42 ==> IsHexDigit(address[i]) by {
          assert forall i :: 2 <= i < 42 ==> tail[..HexLength][i - 2] == address[i];
        }
        assert |tail[HexLength..]| == |address| - 42;
        assert |address| == 43 ==> tail[HexLength..] == [address[42]];
      }
    }
  }

  /** Without a newline in the input the rule is the one usually quoted:
      length 42, prefix `0x`, forty hex digits. */
  lemma ValidWithoutNewline(address: string)
    requires forall i :: 0 <= i < |address| ==> address[i] != '\n'
    ensures IsValidEthAddress(address) <==>
      |address| == 42 && address[..2] == "0x" && AllHex(address[2..])
  {
    IsValidEthAddressIff(address);
    if |address| == 42 {
      assert forall i :: 2 <= i < 42 ==> address[2..][i - 2] == address[i];
    }
  }

  /** Forty hex digits after `0x` are accepted, with or without one trailing
      newline; an upper-case `0X`, one digit fewer or one digit more are refused. */
  lemma AcceptsAndRefuses(hex: string)
    requires |hex| == HexLength && AllHex(hex)
    ensures IsValidEthAddress("0x" + hex)
    ensures IsValidEthAddress("0x" + hex + "\n")
    ensures !IsValidEthAddress("0X" + hex)
    ensures !IsValidEthAddress("0x" + hex[..39])
    ensures !IsValidEthAddress("0x" + hex + hex[..1])
    ensures !IsValidEthAddress("0x" + hex + "\n\n")
  {
    IsValidEthAddressIff("0x" + hex);
    IsValidEthAddressIff("0x" + hex + "\n");
    IsValidEthAddressIff("0x" + hex[..39]);
    IsValidEthAddressIff("0x" + hex + hex[..1]);
    IsValidEthAddressIff("0x" + hex + "\n\n");
    assert ("0x" + hex + hex[..1])[42] == hex[0];
    assert ("0X" + hex)[1] == 'X';
  }

  /** A single character outside `[a-fA-F0-9]` among the forty refuses the address. */
  lemma RefusesNonHex(address: string, k: int)
    requires 2 <= k < 42 && k < |address| && !IsHexDigit(address[k])
    ensures !IsValidEthAddress(address)
  {
    IsValidEthAddressIff(address);
  }
}
