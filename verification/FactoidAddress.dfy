/** Human-readable addresses (modules/factoidaddress/factoidaddress.go), over any hash function. */
module FactoidAddress {
  import opened Common
  import opened Division
  import opened Radix
  import Base58

  /** SHA-256, about which only the length of its output is known. */
  type Hash = f: seq<byte> -> seq<byte> | forall x :: |f(x)| == 32 witness x => seq(32, _ => 0)

  const PREFIX: seq<byte> := [0x5f, 0xb1]

  datatype AddressError = NotBase58 | WrongLength | WrongPrefix | WrongChecksum

  function Checksum(sha: Hash, data: seq<byte>): Result<seq<byte>, AddressError> {
    if |data| != 34 then Err(WrongLength) else Ok(sha(sha(data))[..4])
  }

  function Encode(sha: Hash, rcd: seq<byte>): Result<seq<byte>, AddressError> {
    var addr := PREFIX + rcd;
    match Checksum(sha, addr)
    case Err(e) => Err(e)
    case Ok(checksum) => Ok(Base58.Encode(addr + checksum))
  }

  function Valid(sha: Hash, addr: seq<byte>): Result<(), AddressError> {
    var data := Base58.Decode(addr);
    if |data| == 0 then Err(NotBase58)
    else if |data| != 2 + 32 + 4 then Err(WrongLength)
    else if data[..2] != PREFIX then Err(WrongPrefix)
    else match Checksum(sha, data[..34])
      case Err(e) => Err(e)
      case Ok(expected) => if expected != data[|data| - 4..] then Err(WrongChecksum) else Ok(())
  }

  /** Exactly the 32-byte hashes have an address, and that address is valid. */
  lemma EncodeValid(sha: Hash, rcd: seq<byte>)
    ensures Encode(sha, rcd).Ok? <==> |rcd| == 32
    ensures Encode(sha, rcd).Ok? ==> Valid(sha, Encode(sha, rcd).value) == Ok(())
  {
    if |rcd| == 32 {
      var addr := PREFIX + rcd;
      var data := addr + Checksum(sha, addr).value;
      Base58.DecodeEncode(data);
      assert data[..34] == addr && data[..2] == PREFIX && data[34..] == Checksum(sha, addr).value;
    }
  }

  /** The valid strings are the addresses of 32-byte hashes, one string per hash and one hash per string. */
  lemma ValidIsEncoded(sha: Hash, addr: seq<byte>)
    requires Valid(sha, addr).Ok?
    ensures var rcd := Base58.Decode(addr)[2..34]; |rcd| == 32 && Encode(sha, rcd) == Ok(addr)
    ensures forall other :: Encode(sha, other) == Ok(addr) ==> other == Base58.Decode(addr)[2..34]
  {
    var data := Base58.Decode(addr);
    assert data == PREFIX + data[2..34] + data[34..] && data[..34] == PREFIX + data[2..34];
    Base58.EncodeDecode(addr);
    forall other | Encode(sha, other) == Ok(addr)
      ensures other == data[2..34]
    {
      EncodedHash(sha, other, addr);
    }
  }

  /** The hash can be read off its address. */
  lemma EncodedHash(sha: Hash, rcd: seq<byte>, addr: seq<byte>)
    requires Encode(sha, rcd) == Ok(addr)
    ensures |Base58.Decode(addr)| == 38 && rcd == Base58.Decode(addr)[2..34]
  {
    var data := PREFIX + rcd + Checksum(sha, PREFIX + rcd).value;
    Base58.DecodeEncode(data);
    assert data[2..34] == rcd;
  }

  // ---------- what an address looks like ----------

  /** Two fixed bytes, the hash, and four bytes of the hash of the hash of these. */
  lemma AddressLayout(sha: Hash, rcd: seq<byte>, addr: seq<byte>)
    requires Encode(sha, rcd) == Ok(addr)
    ensures Base58.Decode(addr) == [0x5f, 0xb1] + rcd + sha(sha([0x5f, 0xb1] + rcd))[..4]
  {
    Base58.DecodeEncode(PREFIX + rcd + Checksum(sha, PREFIX + rcd).value);
  }

  lemma {:induction false} PowSum(base: nat, i: nat, j: nat)
    ensures Pow(base, i + j) == Pow(base, i) * Pow(base, j)
  {
    if i > 0 {
      PowSum(base, i - 1, j);
      assert base * (Pow(base, i - 1) * Pow(base, j)) == base * Pow(base, i - 1) * Pow(base, j);
    }
  }

  lemma Pow256()
    ensures Pow(256, 36) == 0x1_000000000000_000000000000_000000000000_000000000000_000000000000_000000000000
  {
    assert Pow(256, 3) == 0x1_000000;
    PowSum(256, 3, 3);
    PowSum(256, 6, 6);
    PowSum(256, 12, 12);
    PowSum(256, 24, 12);
  }

  lemma Pow58()
    ensures Pow(58, 50) == 14838830640714294999983396511843381888381117770762056659674968992599706869653743415066624
  {
    assert Pow(58, 5) == 656_356_768;
    PowSum(58, 5, 5);
    PowSum(58, 10, 10);
    PowSum(58, 20, 20);
    PowSum(58, 40, 10);
  }

  /** The number that 38 bytes with this prefix stand for. */
  lemma PrefixedValue(data: seq<byte>)
    requires |data| == 38 && data[0] == 0x5f && data[1] == 0xb1
    ensures 0x5fb1 * Pow(256, 36) <= Value(256, data) < 0x5fb2 * Pow(256, 36)
  {
    hide Value, Pow;
    var tail := data[2..];
    assert data == [data[0]] + ([data[1]] + tail);
    ValueCons(256, data[0], [data[1]] + tail);
    ValueCons(256, data[1], tail);
    ValueBound(256, tail);
    PowNext(256, 36);
  }

  lemma PowNext(base: nat, k: nat)
    ensures Pow(base, k + 1) == base * Pow(base, k)
  {
  }

  lemma FirstDigits(x: nat)
    requires 0x5fb1 * Pow(256, 36) <= x < 0x5fb2 * Pow(256, 36)
    ensures Pow(58, 50) > 0 && x / Pow(58, 50) == 821
  {
    hide Pow;
    Pow256();
    Pow58();
    Quotient(x, Pow(58, 50), 821);
  }

  lemma TwoDigits()
    ensures Digits(58, 821) == [14, 9]
  {
    assert 821 / 58 == 14 && 821 % 58 == 9 && 14 / 58 == 0;
    assert Digits(58, 0) == [] && Digits(58, 14) == [14];
  }

  /** Every address has 52 letters and starts with FA. */
  lemma StartsWithFA(sha: Hash, rcd: seq<byte>, addr: seq<byte>)
    requires Encode(sha, rcd) == Ok(addr)
    ensures |addr| == 52 && addr[0] == 'F' as int && addr[1] == 'A' as int
  {
    hide Value, Digits, Pow;
    AddressLayout(sha, rcd, addr);
    var data := PREFIX + rcd + Checksum(sha, PREFIX + rcd).value;
    PrefixedValue(data);
    var x := Value(256, data);
    FirstDigits(x);
    DigitsSplit(58, x, 50);
    TwoDigits();
    Base58.EncodeIs(data, 0);
    var ds := Digits(58, x);
    assert ds[..2] == [14, 9] && ds[0] == ds[..2][0] && ds[1] == ds[..2][1];
    assert addr == Base58.Letters(ds);
  }
}
