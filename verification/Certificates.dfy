/** Certificate files as abstract contents: what matters is the leaf's identity and which key it is for. */
module Certificates {
  import opened Text

  datatype Leaf = Leaf(serial: int, keyId: nat, notBefore: int, notAfter: int, names: seq<string>, tag: nat)

  /** File contents. `tag` tells apart contents that agree in everything else. */
  datatype Bytes = CertificatePem(leaf: Leaf) | PrivateKeyPem(keyId: nat, tag: nat) | OtherBytes(tag: nat)

  datatype Pair = Pair(certificate: Bytes, privateKey: Bytes)

  function Digits(n: nat): string {
    if n < 10 then ["0123456789"[n]] else Digits(n / 10) + ["0123456789"[n % 10]]
  }

  /** The serial number in decimal, which is how requests, manifests, plans and receipts name it. */
  function SerialText(leaf: Leaf): string {
    if leaf.serial < 0 then "-" + Digits(Magnitude(leaf)) else Digits(Magnitude(leaf))
  }

  function Magnitude(leaf: Leaf): nat {
    if leaf.serial < 0 then -leaf.serial else leaf.serial
  }

  predicate IsDigit(c: char) {
    '0' <= c <= '9'
  }

  lemma {:induction false} DigitsAreDigits(n: nat)
    ensures Digits(n) != "" && forall i | 0 <= i < |Digits(n)| :: IsDigit(Digits(n)[i])
  {
    if n >= 10 {
      DigitsAreDigits(n / 10);
    }
  }

  lemma DigitsByLast(n: nat)
    ensures Digits(n) != "" && Digits(n)[|Digits(n)| - 1] == "0123456789"[n % 10]
    ensures Digits(n)[..|Digits(n)| - 1] == if n < 10 then "" else Digits(n / 10)
  {
  }

  lemma DigitsDiffer(i: nat, j: nat)
    requires i < 10 && j < 10 && "0123456789"[i] == "0123456789"[j]
    ensures i == j
  {
  }

  lemma SameLastDigit(a: nat, b: nat)
    requires Digits(a) == Digits(b)
    ensures a % 10 == b % 10 && (a < 10 <==> b < 10) && (a >= 10 ==> Digits(a / 10) == Digits(b / 10))
  {
    hide Digits;
    DigitsByLast(a);
    DigitsByLast(b);
    DigitsAreDigits(a / 10);
    DigitsAreDigits(b / 10);
    DigitsDiffer(a % 10, b % 10);
  }

  lemma {:induction false} DigitsNameOneNumber(a: nat, b: nat)
    requires Digits(a) == Digits(b)
    ensures a == b
  {
    hide Digits;
    SameLastDigit(a, b);
    if a >= 10 {
      DigitsNameOneNumber(a / 10, b / 10);
    }
  }

  lemma SignMatters(a: nat, b: nat)
    ensures "-" + Digits(a) != Digits(b)
    ensures "-" + Digits(a) == "-" + Digits(b) ==> a == b
  {
    DigitsAreDigits(b);
    if "-" + Digits(a) == Digits(b) {
      assert ("-" + Digits(a))[0] == '-';
    }
    if "-" + Digits(a) == "-" + Digits(b) {
      assert ("-" + Digits(a))[1..] == Digits(a) && ("-" + Digits(b))[1..] == Digits(b);
      DigitsNameOneNumber(a, b);
    }
  }

  /** A serial text names one number. */
  lemma SerialTextNamesOneNumber(a: Leaf, b: Leaf)
    ensures SerialText(a) == SerialText(b) <==> a.serial == b.serial
  {
    var x, y := Magnitude(a), Magnitude(b);
    SignMatters(x, y);
    SignMatters(y, x);
    if Digits(x) == Digits(y) {
      DigitsNameOneNumber(x, y);
    }
  }

  /** It is never blank and has nothing to trim. */
  lemma SerialTextIsTrimmed(leaf: Leaf)
    ensures Trim(SerialText(leaf)) == SerialText(leaf) && !Blank(SerialText(leaf))
  {
    DigitsAreDigits(Magnitude(leaf));
    var s := SerialText(leaf);
    assert !IsSpace(s[0]) && !IsSpace(s[|s| - 1]);
  }

  /** The certificate parses and the key is the one it was issued for. */
  predicate Loads(p: Pair) {
    p.certificate.CertificatePem? && p.privateKey.PrivateKeyPem? && p.certificate.leaf.keyId == p.privateKey.keyId
  }

  predicate Readable(files: map<string, Bytes>, certificateFile: string, privateKeyFile: string) {
    certificateFile in files && privateKeyFile in files && Loads(Pair(files[certificateFile], files[privateKeyFile]))
  }
}
