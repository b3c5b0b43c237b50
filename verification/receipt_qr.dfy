/** The receipt's ZATCA e-invoice QR payload (tag-length-value records of
    seller name, VAT number, timestamp, invoice total and VAT total, written
    as hex and read back into bytes) and the header figures of the receipt. */
module ReceiptQr {
  import opened Common
  import opened Text

  /** Every character has a code below 256 (one byte, two hex digits). */
  predicate Latin1(s: string)
  {
    forall i :: 0 <= i < |s| ==> s[i] as int < 256
  }

  function Codes(s: string): (r: seq<nat>)
    ensures |r| == |s| && forall i :: 0 <= i < |s| ==> r[i] == s[i] as int
  {
    seq(|s|, i requires 0 <= i < |s| => s[i] as int)
  }

  /** The lower-case digit of `Number.prototype.toString(16)`. */
  function HexDigit(d: nat): (c: char)
    requires d < 16
  {
    if d < 10 then (48 + d) as char else (87 + d) as char
  }

  predicate IsHexChar(c: char)
  {
    '0' <= c <= '9' || 'a' <= c <= 'f'
  }

  /** `parseInt` of one hex digit. */
  function HexVal(c: char): (d: nat)
    requires IsHexChar(c)
    ensures d < 16
  {
    if c <= '9' then c as int - 48 else c as int - 87
  }

  lemma HexDigitRoundTrip(d: nat)
    requires d < 16
    ensures IsHexChar(HexDigit(d)) && HexVal(HexDigit(d)) == d
  {
  }

  /** `n.toString(16)`: most significant digit first, no leading zeros. */
  function NumToHex(n: nat): (s: string)
    ensures |s| >= 1
    ensures n < 16 ==> |s| == 1
    ensures forall i :: 0 <= i < |s| ==> IsHexChar(s[i])
  {
    if n < 16 then [HexDigit(n)] else NumToHex(n / 16) + [HexDigit(n % 16)]
  }

  /** `.padStart(2, '0')`. */
  function PadStart2(s: string): (r: string)
    ensures |r| == if |s| >= 2 then |s| else 2
  {
    if |s| >= 2 then s else seq(2 - |s|, _ => '0') + s
  }

  /** The hex form of one number as the encoder writes it. */
  function Hex2(n: nat): string
  {
    PadStart2(NumToHex(n))
  }

  /** Two hex digits for a value below 256, and more than two from 256 up:
      the fixed width breaks on any larger tag, length or character. */
  lemma Hex2Width(n: nat)
    ensures n < 256 ==> |Hex2(n)| == 2
    ensures n >= 256 ==> |Hex2(n)| > 2
  {
    if n >= 16 {
      var q := n / 16;
      assert NumToHex(n) == NumToHex(q) + [HexDigit(n % 16)];
      if n >= 256 {
        assert q >= 16;
        assert |NumToHex(q)| >= 2 by {
          assert NumToHex(q) == NumToHex(q / 16) + [HexDigit(q % 16)];
        }
      }
    }
  }

  predicate IsHexString(h: string)
  {
    forall i :: 0 <= i < |h| ==> IsHexChar(h[i])
  }

  lemma Hex2IsHex(n: nat)
    ensures IsHexString(Hex2(n))
  {
    var s := NumToHex(n);
    if |s| < 2 {
      assert forall i :: 0 <= i < |Hex2(n)| ==> Hex2(n)[i] == '0' || Hex2(n)[i] == s[i - (2 - |s|)];
    }
  }

  /** `toHex(str)`: two (or more) hex digits per character code. */
  function ToHex(s: string): (h: string)
    ensures IsHexString(h)
    ensures Latin1(s) ==> |h| == 2 * |s|
  {
    if |s| == 0 then ""
    else
      Hex2IsHex(s[0] as int);
      Hex2Width(s[0] as int);
      Hex2(s[0] as int) + ToHex(s[1..])
  }

  /** `createTLV(tag, val)`. */
  function CreateTlv(tag: nat, v: string): (h: string)
    ensures IsHexString(h)
  {
    Hex2IsHex(tag);
    Hex2IsHex(|v|);
    Hex2(tag) + Hex2(|v|) + ToHex(v)
  }

  /** A record is four hex digits of header and two per character when the
      tag, the length and every character fit in a byte. */
  lemma TlvLength(tag: nat, v: string)
    requires tag < 256 && |v| < 256 && Latin1(v)
    ensures |CreateTlv(tag, v)| == 4 + 2 * |v|
  {
    Hex2Width(tag);
    Hex2Width(|v|);
  }

  /** `companyNameEn || companyName`. */
  function SellerName(nameEn: string, name: string): (r: string)
    ensures r == (if nameEn != "" then nameEn else name)
    ensures r == "" <==> nameEn == "" && name == ""
  {
    if nameEn != "" then nameEn else name
  }

  /** The QR payload: tags 1 to 5 in order. The timestamp and the two
      amounts arrive already formatted as text. */
  function Payload(nameEn: string, name: string, vat: string, timestamp: string, total: string, tax: string): string
  {
    CreateTlv(1, SellerName(nameEn, name)) + CreateTlv(2, vat) + CreateTlv(3, timestamp)
      + CreateTlv(4, total) + CreateTlv(5, tax)
  }

  /** The bytes the hex→byte loop reads: each pair of digits is one byte;
      a dangling last digit is read on its own. */
  function DecodePairs(h: string): (r: seq<nat>)
    requires IsHexString(h)
    ensures |r| == (|h| + 1) / 2
  {
    if |h| == 0 then []
    else if |h| == 1 then [HexVal(h[0])]
    else [16 * HexVal(h[0]) + HexVal(h[1])] + DecodePairs(h[2..])
  }

  /** The receipt's byte loop: `parseInt(tlv.substr(i, 2), 16)` for
      `i = 0, 2, 4, …`. */
  method HexToBytes(h: string) returns (bytes: seq<nat>)
    requires IsHexString(h)
    ensures bytes == DecodePairs(h)
  {
    bytes := [];
    var i := 0;
    while i < |h|
      invariant 0 <= i <= |h|
      invariant IsHexString(h[i..]) && bytes + DecodePairs(h[i..]) == DecodePairs(h)
    {
      DecodeAt(h, i);
      if i + 1 < |h| {
        var b := 16 * HexVal(h[i]) + HexVal(h[i + 1]);
        AppendAssoc(bytes, [b], DecodePairs(h[i + 2..]));
        bytes := bytes + [b];
        i := i + 2;
      } else {
        // a dangling last digit is the last read: `i += 2` leaves the loop
        bytes := bytes + [HexVal(h[i])];
        i := i + 1;
        assert h[i..] == [];
      }
    }
  }

  lemma AppendAssoc(a: seq<nat>, b: seq<nat>, c: seq<nat>)
    ensures (a + b) + c == a + (b + c)
  {
  }

  /** What one turn of the byte loop reads at offset `i`. */
  lemma DecodeAt(h: string, i: nat)
    requires IsHexString(h) && i < |h|
    ensures IsHexString(h[i..])
    ensures i + 1 < |h| ==> IsHexString(h[i + 2..])
    ensures i + 1 < |h| ==> DecodePairs(h[i..]) == [16 * HexVal(h[i]) + HexVal(h[i + 1])] + DecodePairs(h[i + 2..])
    ensures i + 1 == |h| ==> DecodePairs(h[i..]) == [HexVal(h[i])]
  {
    assert forall j :: 0 <= j < |h[i..]| ==> h[i..][j] == h[i + j];
    if i + 1 < |h| {
      assert h[i..][2..] == h[i + 2..];
    }
  }

  lemma {:induction false} DecodeAppend(a: string, b: string)
    requires IsHexString(a) && IsHexString(b) && |a| % 2 == 0
    ensures IsHexString(a + b)
    ensures DecodePairs(a + b) == DecodePairs(a) + DecodePairs(b)
  {
    assert IsHexString(a + b) by {
      forall i | 0 <= i < |a + b| ensures IsHexChar((a + b)[i]) {
        if i < |a| { assert (a + b)[i] == a[i]; } else { assert (a + b)[i] == b[i - |a|]; }
      }
    }
    if |a| > 0 {
      assert (a + b)[2..] == a[2..] + b;
      assert forall i :: 0 <= i < |a[2..]| ==> a[2..][i] == a[i + 2];
      DecodeAppend(a[2..], b);
      assert (a + b)[0] == a[0] && (a + b)[1] == a[1];
    } else {
      assert a + b == b;
    }
  }

  /** Decoding a byte's two hex digits gives the byte back. */
  lemma Hex2RoundTrip(n: nat)
    requires n < 256
    ensures IsHexString(Hex2(n)) && DecodePairs(Hex2(n)) == [n]
  {
    Hex2IsHex(n);
    if n < 16 {
      assert Hex2(n) == ['0', HexDigit(n)];
      HexDigitRoundTrip(n);
    } else {
      var q := n / 16;
      assert NumToHex(q) == [HexDigit(q)];
      assert Hex2(n) == [HexDigit(q), HexDigit(n % 16)];
      HexDigitRoundTrip(q);
      HexDigitRoundTrip(n % 16);
      assert Hex2(n)[2..] == [];
    }
  }

  /** The byte loop inverts `toHex`: the decoded bytes are the character
      codes. */
  lemma {:induction false} ToHexRoundTrip(s: string)
    requires Latin1(s)
    ensures DecodePairs(ToHex(s)) == Codes(s)
  {
    if |s| > 0 {
      assert Latin1(s[1..]) by {
        forall i | 0 <= i < |s[1..]| ensures s[1..][i] as int < 256 {
          assert s[1..][i] == s[i + 1];
        }
      }
      Hex2RoundTrip(s[0] as int);
      Hex2Width(s[0] as int);
      ToHexRoundTrip(s[1..]);
      DecodeAppend(Hex2(s[0] as int), ToHex(s[1..]));
      assert Codes(s) == [s[0] as int] + Codes(s[1..]);
    }
  }

  /** A record decodes to its tag byte, its length byte and its value's
      character codes. */
  lemma TlvBytes(tag: nat, v: string)
    requires tag < 256 && |v| < 256 && Latin1(v)
    ensures DecodePairs(CreateTlv(tag, v)) == [tag, |v|] + Codes(v)
    ensures |CreateTlv(tag, v)| % 2 == 0
  {
    Hex2RoundTrip(tag);
    Hex2RoundTrip(|v|);
    Hex2Width(tag);
    Hex2Width(|v|);
    ToHexRoundTrip(v);
    DecodeAppend(Hex2(tag), Hex2(|v|));
    DecodeAppend(Hex2(tag) + Hex2(|v|), ToHex(v));
  }

  /** A field of the QR code: a tag and a value's bytes. */
  datatype Field = Field(tag: nat, value: seq<nat>)

  /** How a reader of the QR code splits its bytes into fields; a record
      that runs past the end stops the reading. */
  function ReadFields(bytes: seq<nat>): seq<Field>
    decreases |bytes|
  {
    if |bytes| < 2 || |bytes| < 2 + bytes[1] then []
    else [Field(bytes[0], bytes[2..2 + bytes[1]])] + ReadFields(bytes[2 + bytes[1]..])
  }

  lemma ReadFieldsStep(tag: nat, v: string, rest: seq<nat>)
    requires |v| < 256
    ensures ReadFields([tag, |v|] + Codes(v) + rest) == [Field(tag, Codes(v))] + ReadFields(rest)
  {
    var b := [tag, |v|] + Codes(v) + rest;
    assert b[2..2 + |v|] == Codes(v);
    assert b[2 + |v|..] == rest;
  }

  /** The five fields fit the one-byte format. */
  predicate Encodable(fields: seq<string>)
  {
    forall i :: 0 <= i < |fields| ==> |fields[i]| < 256 && Latin1(fields[i])
  }

  /** The hex of tags 1, 2, … over the given values, as `Payload` lays it out. */
  function Records(vs: seq<string>, firstTag: nat): string
    decreases |vs|
  {
    if |vs| == 0 then "" else CreateTlv(firstTag, vs[0]) + Records(vs[1..], firstTag + 1)
  }

  function FieldsOf(vs: seq<string>, firstTag: nat): (r: seq<Field>)
    ensures |r| == |vs|
    decreases |vs|
  {
    if |vs| == 0 then [] else [Field(firstTag, Codes(vs[0]))] + FieldsOf(vs[1..], firstTag + 1)
  }

  lemma {:induction false} RecordsRoundTrip(vs: seq<string>, firstTag: nat)
    requires Encodable(vs) && firstTag + |vs| <= 256
    ensures IsHexString(Records(vs, firstTag))
    ensures |Records(vs, firstTag)| % 2 == 0
    ensures ReadFields(DecodePairs(Records(vs, firstTag))) == FieldsOf(vs, firstTag)
  {
    if |vs| == 0 {
      assert Records(vs, firstTag) == "";
    } else {
      assert Encodable(vs[1..]) by {
        forall i | 0 <= i < |vs[1..]| ensures |vs[1..][i]| < 256 && Latin1(vs[1..][i]) {
          assert vs[1..][i] == vs[i + 1];
        }
      }
      RecordsRoundTrip(vs[1..], firstTag + 1);
      var tail := Records(vs[1..], firstTag + 1);
      assert Records(vs, firstTag) == CreateTlv(firstTag, vs[0]) + tail;
      RecordStep(firstTag, vs[0], tail, FieldsOf(vs[1..], firstTag + 1));
      assert FieldsOf(vs, firstTag) == [Field(firstTag, Codes(vs[0]))] + FieldsOf(vs[1..], firstTag + 1);
    }
  }

  /** One record in front of well-formed hex adds its field in front of the
      fields read from the rest. */
  lemma RecordStep(tag: nat, v: string, tail: string, rest: seq<Field>)
    requires tag < 256 && |v| < 256 && Latin1(v)
    requires IsHexString(tail) && |tail| % 2 == 0 && ReadFields(DecodePairs(tail)) == rest
    ensures IsHexString(CreateTlv(tag, v) + tail)
    ensures |CreateTlv(tag, v) + tail| % 2 == 0
    ensures ReadFields(DecodePairs(CreateTlv(tag, v) + tail)) == [Field(tag, Codes(v))] + rest
  {
    RecordBytes(tag, v, tail);
    ReadFieldsStep(tag, v, DecodePairs(tail));
  }

  /** One record in front of well-formed hex decodes to its header bytes
      and character codes in front of the rest's bytes. */
  lemma RecordBytes(tag: nat, v: string, tail: string)
    requires tag < 256 && |v| < 256 && Latin1(v)
    requires IsHexString(tail) && |tail| % 2 == 0
    ensures IsHexString(CreateTlv(tag, v) + tail)
    ensures |CreateTlv(tag, v) + tail| % 2 == 0
    ensures DecodePairs(CreateTlv(tag, v) + tail) == [tag, |v|] + Codes(v) + DecodePairs(tail)
  {
    var head := CreateTlv(tag, v);
    TlvBytes(tag, v);
    assert |head + tail| == |head| + |tail|;
    EvenSum(|head|, |tail|);
    DecodeAppend(head, tail);
  }

  lemma EvenSum(a: nat, b: nat)
    requires a % 2 == 0 && b % 2 == 0
    ensures (a + b) % 2 == 0
  {
  }

  lemma PayloadIsRecords(nameEn: string, name: string, vat: string, timestamp: string, total: string, tax: string)
    ensures Payload(nameEn, name, vat, timestamp, total, tax)
         == Records([SellerName(nameEn, name), vat, timestamp, total, tax], 1)
  {
    var vs := [SellerName(nameEn, name), vat, timestamp, total, tax];
    assert Records(vs[4..], 5) == CreateTlv(5, tax) by {
      assert vs[4..][1..] == [];
    }
    assert Records(vs[3..], 4) == CreateTlv(4, total) + Records(vs[4..], 5) by {
      assert vs[3..][1..] == vs[4..];
    }
    assert Records(vs[2..], 3) == CreateTlv(3, timestamp) + Records(vs[3..], 4) by {
      assert vs[2..][1..] == vs[3..];
    }
    assert Records(vs[1..], 2) == CreateTlv(2, vat) + Records(vs[2..], 3) by {
      assert vs[1..][1..] == vs[2..];
    }
    assert Records(vs, 1) == CreateTlv(1, SellerName(nameEn, name)) + Records(vs[1..], 2);
    ConcatAssoc(CreateTlv(1, SellerName(nameEn, name)), CreateTlv(2, vat), CreateTlv(3, timestamp),
                CreateTlv(4, total), CreateTlv(5, tax));
  }

  lemma ConcatAssoc(a: string, b: string, c: string, d: string, e: string)
    ensures a + b + c + d + e == a + (b + (c + (d + e)))
  {
  }

  lemma FiveFields(vs: seq<string>)
    requires |vs| == 5
    ensures FieldsOf(vs, 1) == [Field(1, Codes(vs[0])), Field(2, Codes(vs[1])), Field(3, Codes(vs[2])),
                                Field(4, Codes(vs[3])), Field(5, Codes(vs[4]))]
  {
    assert FieldsOf(vs[4..], 5) == [Field(5, Codes(vs[4]))] by {
      assert vs[4..][1..] == [];
    }
    assert FieldsOf(vs[3..], 4) == [Field(4, Codes(vs[3]))] + FieldsOf(vs[4..], 5) by {
      assert vs[3..][1..] == vs[4..];
    }
    assert FieldsOf(vs[2..], 3) == [Field(3, Codes(vs[2]))] + FieldsOf(vs[3..], 4) by {
      assert vs[2..][1..] == vs[3..];
    }
    assert FieldsOf(vs[1..], 2) == [Field(2, Codes(vs[1]))] + FieldsOf(vs[2..], 3) by {
      assert vs[1..][1..] == vs[2..];
    }
  }

  /** The QR code reads back as exactly the five fields in tag order: seller
      name, VAT number, timestamp, total and VAT, each byte for byte. */
  lemma PayloadRoundTrip(nameEn: string, name: string, vat: string, timestamp: string, total: string, tax: string)
    requires Encodable([SellerName(nameEn, name), vat, timestamp, total, tax])
    ensures IsHexString(Payload(nameEn, name, vat, timestamp, total, tax))
    ensures ReadFields(DecodePairs(Payload(nameEn, name, vat, timestamp, total, tax)))
         == [Field(1, Codes(SellerName(nameEn, name))), Field(2, Codes(vat)), Field(3, Codes(timestamp)),
             Field(4, Codes(total)), Field(5, Codes(tax))]
  {
    var vs := [SellerName(nameEn, name), vat, timestamp, total, tax];
    PayloadIsRecords(nameEn, name, vat, timestamp, total, tax);
    RecordsRoundTrip(vs, 1);
    FiveFields(vs);
  }

  /** The figures at the head of the receipt. */
  datatype ReceiptHead = ReceiptHead(title: string, paid: real, change: real, otherItemsHeader: bool)

  /** `amountPaid || totalAmount`, `change || max(0, paid − total)`, the
      invoice title and whether the "Other Items" header is printed. A zero
      amount stands for a missing one. */
  function Head(customerVat: string, amountPaid: real, change: real, totalAmount: real,
                sectionCount: nat, remainingCount: nat): (h: ReceiptHead)
    ensures h.title == "Tax Invoice" <==> !IsBlank(customerVat)
    ensures h.title == "Simplified Tax Invoice" <==> IsBlank(customerVat)
    ensures h.paid == if amountPaid != 0.0 then amountPaid else totalAmount
    ensures change != 0.0 ==> h.change == change
    ensures change == 0.0 ==> h.change >= 0.0 && h.change >= h.paid - totalAmount
    ensures change == 0.0 && h.paid >= totalAmount ==> h.change == h.paid - totalAmount
    ensures change == 0.0 && h.paid < totalAmount ==> h.change == 0.0
    ensures h.otherItemsHeader <==> sectionCount > 0 && remainingCount > 0
  {
    TrimEmptyIffBlank(customerVat);
    var paid := if amountPaid != 0.0 then amountPaid else totalAmount;
    ReceiptHead(if Trim(customerVat) != "" then "Tax Invoice" else "Simplified Tax Invoice",
                paid,
                if change != 0.0 then change else MaxReal(0.0, paid - totalAmount),
                sectionCount > 0 && remainingCount > 0)
  }
}
