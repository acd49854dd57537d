/** Host-global names (internal/naming/naming.go): device names, prefixes, the routing table's alias. */
module Naming {
  import opened Wrappers

  const DEVICE_PREFIX := "fpx"
  const MAX_DEVICE_NAME_LEN := 15
  const DEFAULT_ROUTING_TABLE: int := 9527
  const ROUTING_TABLE_ALIAS := "free_proxy"

  // ----- Decimal text ---------------------------------------------------------------

  function Decimal(n: nat): (s: string)
    ensures s != "" && AllDigits(s)
  {
    if n < 10 then ['0' + n as char] else Decimal(n / 10) + ['0' + (n % 10) as char]
  }

  function Itoa(i: int): string {
    if i < 0 then "-" + Decimal(-i) else Decimal(i)
  }

  predicate IsDigit(c: char) { '0' <= c <= '9' }

  predicate AllDigits(s: string) {
    forall i | 0 <= i < |s| :: IsDigit(s[i])
  }

  function Value(s: string): nat
    requires AllDigits(s)
  {
    if s == "" then 0 else 10 * Value(s[..|s| - 1]) + (s[|s| - 1] - '0') as nat
  }

  lemma {:induction false} DecimalValue(n: nat)
    ensures Value(Decimal(n)) == n
  {
    if n >= 10 {
      DecimalValue(n / 10);
      assert Decimal(n)[..|Decimal(n)| - 1] == Decimal(n / 10);
    } else {
      assert Decimal(n)[..0] == "";
    }
  }

  lemma DecimalInjective(m: nat, n: nat)
    requires Decimal(m) == Decimal(n)
    ensures m == n
  {
    DecimalValue(m);
    DecimalValue(n);
  }

  lemma ItoaSign(i: int)
    ensures i < 0 ==> Itoa(i)[0] == '-' && Itoa(i)[1..] == Decimal(-i)
    ensures i >= 0 ==> IsDigit(Itoa(i)[0]) && Itoa(i) == Decimal(i)
  {
  }

  lemma ItoaInjective(i: int, j: int)
    requires Itoa(i) == Itoa(j)
    ensures i == j
  {
    ItoaSign(i);
    ItoaSign(j);
    if i < 0 {
      DecimalInjective(-i, -j);
    } else {
      DecimalInjective(i, j);
    }
  }

  const MAX_INT: nat := 0x7FFF_FFFF_FFFF_FFFF

  /** strconv.Atoi on a non-empty string of digits; None when the value overflows. */
  function Atoi(digits: string): Option<int>
    requires AllDigits(digits)
  {
    if Value(digits) <= MAX_INT then Some(Value(digits)) else None
  }

  // ----- Device names ---------------------------------------------------------------

  function DeviceName(prefix: string, i: int): string {
    prefix + Itoa(i)
  }

  function ActiveDevice(): string {
    DeviceName(DEVICE_PREFIX, 0)
  }

  /** `prefix` followed by a decimal index; the scan of the suffix is its definition. */
  predicate HasDevicePrefix(device: string, prefix: string) {
    prefix != "" && prefix < device && AllDigits(device[|prefix|..])
  }

  /** `device` is `prefix` with a run of decimal digits after it. */
  ghost predicate Numbered(device: string, prefix: string) {
    exists digits :: NumberedBy(device, prefix, digits)
  }

  ghost predicate NumberedBy(device: string, prefix: string, digits: string) {
    device == prefix + digits && digits != "" && forall c | c in digits :: '0' <= c <= '9'
  }

  lemma NumberedSuffix(device: string, prefix: string, digits: string)
    requires NumberedBy(device, prefix, digits)
    ensures AllDigits(digits) && |prefix| < |device| && prefix < device && device[|prefix|..] == digits
  {
    forall i | 0 <= i < |digits| ensures IsDigit(digits[i]) {
      assert digits[i] in digits;
    }
  }

  lemma PrefixExactly(device: string, prefix: string)
    ensures HasDevicePrefix(device, prefix) <==> prefix != "" && Numbered(device, prefix)
  {
    if HasDevicePrefix(device, prefix) {
      assert NumberedBy(device, prefix, device[|prefix|..]);
    }
    if digits :| NumberedBy(device, prefix, digits) {
      NumberedSuffix(device, prefix, digits);
    }
  }

  lemma DeviceNameInjective(prefix: string, i: int, j: int)
    requires DeviceName(prefix, i) == DeviceName(prefix, j)
    ensures i == j
  {
    assert DeviceName(prefix, i)[|prefix|..] == Itoa(i) && DeviceName(prefix, j)[|prefix|..] == Itoa(j);
    ItoaInjective(i, j);
  }

  lemma PoolNamesHavePrefix(prefix: string, i: nat)
    requires prefix != ""
    ensures HasDevicePrefix(DeviceName(prefix, i), prefix)
  {
    assert DeviceName(prefix, i)[|prefix|..] == Decimal(i);
  }

  predicate Forbidden(c: char) {
    c == ' ' || c == '/' || c == ':' || c == '\t' || c == '\n'
  }

  predicate ValidDeviceName(name: string) {
    && name != "" && |name| <= MAX_DEVICE_NAME_LEN
    && (forall i | 0 <= i < |name| :: !Forbidden(name[i]))
    && name != "." && name != ".."
  }

  predicate ValidDevicePrefix(prefix: string) {
    prefix != "" && ValidDeviceName(prefix + "000")
  }

  predicate ValidRoutingTable(table: int) {
    table > 0 && table != 253 && table != 254 && table != 255
  }
}
