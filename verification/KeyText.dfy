/** Keys as text: the id that a user types, and the digits that appear in the name of a saved file. */
module KeyText {
  import opened KeyBytes
  import opened TorrentFile

  const TEXT_SIZE := 64

  /** 0 to 9, a to f or A to F. */
  predicate IsHexDigit(c: Byte) {
    48 <= c <= 57 || 97 <= c <= 102 || 65 <= c <= 70
  }

  function Lower(c: Byte): Byte {
    if 65 <= c <= 70 then c + 32 else c
  }

  /** The value of a digit, by the distance from the first character of its kind. */
  function DigitValue(c: Byte): (v: int)
    requires IsHexDigit(c)
    ensures 0 <= v < 16 && HexDigit(v) == Lower(c)
  {
    if c < 65 then c - 48 else if c < 97 then c - 65 + 10 else c - 97 + 10
  }

  /** The letters before position n have become small ones. */
  ghost predicate LoweredUpTo(text: Bytes, after: Bytes, n: nat) {
    |after| == |text| && forall i :: 0 <= i < |text| ==> after[i] == if i < n then Lower(text[i]) else text[i]
  }

  ghost predicate AllHex(text: Bytes) {
    forall i :: 0 <= i < |text| ==> IsHexDigit(text[i])
  }

  lemma {:induction false} HexAt(bytes: Bytes, i: nat)
    requires i < |bytes|
    ensures Hex(bytes)[2 * i] == HexDigit(bytes[i] / 16) && Hex(bytes)[2 * i + 1] == HexDigit(bytes[i] % 16)
  {
    if i == 0 {
    } else {
      HexAt(bytes[1..], i - 1);
      assert Hex(bytes)[2..] == Hex(bytes[1..]);
    }
  }

  lemma IsHexOf(bytes: Bytes, text: Bytes)
    requires |text| == 2 * |bytes|
    requires forall i :: 0 <= i < |bytes| ==>
      text[2 * i] == HexDigit(bytes[i] / 16) && text[2 * i + 1] == HexDigit(bytes[i] % 16)
    ensures Hex(bytes) == text
  {
    forall j | 0 <= j < |text| ensures Hex(bytes)[j] == text[j] {
      HexAt(bytes, j / 2);
      assert j == 2 * (j / 2) || j == 2 * (j / 2) + 1;
    }
  }

  /** Different keys are written differently, and with small digits only. */
  lemma HexIsInjective(a: Bytes, b: Bytes)
    ensures Hex(a) == Hex(b) ==> a == b
    ensures AllHex(Hex(a)) && LoweredUpTo(Hex(a), Hex(a), |Hex(a)|)
  {
    forall j | 0 <= j < |Hex(a)| ensures IsHexDigit(Hex(a)[j]) && Lower(Hex(a)[j]) == Hex(a)[j] {
      HexAt(a, j / 2);
      assert j == 2 * (j / 2) || j == 2 * (j / 2) + 1;
    }
    if Hex(a) == Hex(b) {
      forall i | 0 <= i < |a| ensures a[i] == b[i] {
        HexAt(a, i);
        HexAt(b, i);
      }
    }
  }

  /** The check: letters become small on the way, up to the first character that is no digit. */
  method LowerDigits(buf: array<Byte>) returns (ok: bool, ghost n: nat)
    modifies buf
    ensures ok <==> AllHex(old(buf[..]))
    ensures n <= buf.Length && LoweredUpTo(old(buf[..]), buf[..], n)
    ensures n < buf.Length ==> !IsHexDigit(old(buf[n]))
    ensures ok <==> n == buf.Length
  {
    n := 0;
    var i := 0;
    while i < buf.Length
      invariant 0 <= i <= buf.Length && n == i
      invariant forall j :: 0 <= j < i ==> IsHexDigit(old(buf[j])) && buf[j] == Lower(old(buf[j]))
      invariant forall j :: i <= j < buf.Length ==> buf[j] == old(buf[j])
    {
      if 65 <= buf[i] <= 70 {
        buf[i] := buf[i] - 65 + 97;
      } else if !(48 <= buf[i] <= 57 || 97 <= buf[i] <= 102) {
        assert !IsHexDigit(old(buf[..])[i]);
        return false, i;
      }
      i := i + 1;
      n := i;
    }
    ok := true;
  }

  /** Reads a key from text, which is changed in place. It fails exactly on text of another length or
      with a character that is no digit, and then leaves the key alone. Otherwise the key is the one
      that is written as the text, small letters for capitals. */
  method KeyFromText(key: array<Byte>, buf: array<Byte>) returns (ok: bool)
    requires key.Length == KEY_SIZE && key != buf
    modifies key, buf
    ensures ok <==> buf.Length == TEXT_SIZE && AllHex(old(buf[..]))
    ensures ok ==> Hex(key[..]) == buf[..] && LoweredUpTo(old(buf[..]), buf[..], TEXT_SIZE)
    ensures !ok ==> key[..] == old(key[..])
    ensures buf.Length != TEXT_SIZE ==> buf[..] == old(buf[..])
  {
    if buf.Length != 2 * KEY_SIZE {
      return false;
    }
    ghost var n;
    ok, n := LowerDigits(buf);
    if !ok {
      return;
    }
    ghost var text := buf[..];
    var i := 0;
    while i < buf.Length
      invariant 0 <= i <= buf.Length && i % 2 == 0 && buf[..] == text
      invariant forall j :: 0 <= j < i / 2 ==>
        HexDigit(key[j] / 16) == text[2 * j] && HexDigit(key[j] % 16) == text[2 * j + 1]
    {
      assert IsHexDigit(text[i]) && IsHexDigit(text[i + 1]);
      var high, low := DigitValue(buf[i]), DigitValue(buf[i + 1]);
      key[i / 2] := 16 * high + low;
      i := i + 2;
    }
    IsHexOf(key[..], text);
  }
}
