/** The udev path under which a staged LUN shows up on the node. */
module DevicePaths {

  function Digit(d: nat): char
    requires d < 16
  {
    if d < 10 then '0' + d as char else 'a' + (d - 10) as char
  }

  function DigitValue(c: char): nat {
    if '0' <= c <= '9' then (c - '0') as int
    else if 'a' <= c <= 'f' then (c - 'a') as int + 10
    else 0
  }

  /** A number in hexadecimal or in decimal, without leading zeros. */
  function Digits(n: nat, hex: bool): (s: string)
    ensures s != "" && '-' !in s && 'x' !in s
  {
    if hex then
      if n < 16 then [Digit(n)] else Digits(n / 16, hex) + [Digit(n % 16)]
    else
      if n < 10 then [Digit(n)] else Digits(n / 10, hex) + [Digit(n % 10)]
  }

  function Zeros(n: nat): (s: string)
    ensures |s| == n && forall i :: 0 <= i < n ==> s[i] == '0'
  {
    seq(n, _ => '0')
  }

  /** fmt's %0*x and %0*d. */
  function Padded(n: nat, hex: bool, width: nat): string {
    var s := Digits(n, hex);
    if |s| < width then Zeros(width - |s|) + s else s
  }

  function Number(s: string, hex: bool): nat {
    if s == "" then 0
    else
      var high, low := Number(s[..|s| - 1], hex), DigitValue(s[|s| - 1]);
      if hex then high * 16 + low else high * 10 + low
  }

  /** strconv.Itoa. */
  function Itoa(n: int): string {
    if n < 0 then "-" + Digits(-n, false) else Digits(n, false)
  }

  /** strings.TrimSuffix. */
  function TrimSuffix(s: string, suffix: string): string {
    if |suffix| <= |s| && s[|s| - |suffix|..] == suffix then s[..|s| - |suffix|] else s
  }

  function LunText(lun: int): string {
    if lun > 255 then TrimSuffix("0x" + Padded(lun, true, 4) + Padded(1, false, 13), "1") else Itoa(lun)
  }

  function ConstructDevByPath(portal: string, target: string, lun: int): string {
    "/dev/disk/by-path/ip" + "-" + portal + "-" + "iscsi" + "-" + target + "-" + "lun" + "-" + LunText(lun)
  }

  lemma {:induction false} NumberOfDigits(n: nat, hex: bool)
    ensures Number(Digits(n, hex), hex) == n
  {
    var s := Digits(n, hex);
    if hex && n >= 16 {
      NumberOfDigits(n / 16, hex);
      assert s[..|s| - 1] == Digits(n / 16, hex);
    } else if !hex && n >= 10 {
      NumberOfDigits(n / 10, hex);
      assert s[..|s| - 1] == Digits(n / 10, hex);
    } else {
      assert s[..0] == "";
    }
  }

  lemma {:induction false} LeadingZeros(k: nat, s: string, hex: bool)
    ensures Number(Zeros(k) + s, hex) == Number(s, hex)
    decreases k + |s|
  {
    var t := Zeros(k) + s;
    if s != "" {
      assert t[..|t| - 1] == Zeros(k) + s[..|s| - 1];
      LeadingZeros(k, s[..|s| - 1], hex);
    } else if k > 0 {
      assert t[..|t| - 1] == Zeros(k - 1) + s;
      LeadingZeros(k - 1, s, hex);
    } else {
      assert t == s;
    }
  }

  /** Reads a LUN back from the last part of the device path. */
  function LunOf(text: string): int {
    if |text| > 14 && text[1] == 'x' then Number(text[2..|text| - 12], true)
    else if text != "" && text[0] == '-' then -(Number(text[1..], false) as int)
    else Number(text, false)
  }

  lemma TrimAppended(s: string, suffix: string)
    ensures TrimSuffix(s + suffix, suffix) == s
  {
    assert (s + suffix)[|s|..] == suffix && (s + suffix)[..|s|] == s;
  }

  lemma PaddedHex(n: nat)
    ensures |Padded(n, true, 4)| >= 4 && '-' !in Padded(n, true, 4)
    ensures Number(Padded(n, true, 4), true) == n
  {
    var s := Digits(n, true);
    NumberOfDigits(n, true);
    if |s| < 4 {
      LeadingZeros(4 - |s|, s, true);
    }
  }

  lemma LargeLunText(lun: int)
    requires lun > 255
    ensures LunText(lun) == "0x" + Padded(lun, true, 4) + Zeros(12)
  {
    var front := "0x" + Padded(lun, true, 4);
    assert Padded(1, false, 13) == Zeros(12) + "1";
    assert front + (Zeros(12) + "1") == (front + Zeros(12)) + "1";
    TrimAppended(front + Zeros(12), "1");
  }

  /** LUNs that need the extended form and fit 16 bits get "0x", exactly four hex digits and twelve zeros. */
  lemma SixteenBitLunText(lun: int)
    requires 256 <= lun <= 65535
    ensures exists hex: string ::
      |hex| == 4 && LunText(lun) == "0x" + hex + Zeros(12) && Number(hex, true) == lun
  {
    LargeLunText(lun);
    PaddedHex(lun);
    assert |Digits(lun, true)| <= 4 by {
      assert |Digits(lun / 16 / 16 / 16, true)| == 1;
      assert |Digits(lun / 16 / 16, true)| <= 2;
      assert |Digits(lun / 16, true)| <= 3;
    }
    var hex := Padded(lun, true, 4);
    assert |hex| == 4 && LunText(lun) == "0x" + hex + Zeros(12) && Number(hex, true) == lun;
  }

  lemma {:induction false} DecimalDigits(n: nat)
    ensures forall c :: c in Digits(n, false) ==> '0' <= c <= '9'
    ensures n > 0 ==> Digits(n, false)[0] != '0'
  {
    if n >= 10 {
      DecimalDigits(n / 10);
    }
  }

  /** LUNs up to 255 are written as decimal numbers without leading zeros. */
  lemma {:induction false} SmallLunText(lun: int)
    requires 0 <= lun <= 255
    ensures var text := LunText(lun);
      && (forall c :: c in text ==> '0' <= c <= '9')
      && Number(text, false) == lun
      && (|text| > 1 ==> text[0] != '0')
  {
    DecimalDigits(lun);
    NumberOfDigits(lun, false);
  }

  lemma LunTextReadsBack(lun: int)
    ensures LunOf(LunText(lun)) == lun
  {
    var text := LunText(lun);
    if lun > 255 {
      LargeLunText(lun);
      PaddedHex(lun);
      assert text[2..|text| - 12] == Padded(lun, true, 4);
    } else if lun < 0 {
      NumberOfDigits(-lun, false);
      assert text[1..] == Digits(-lun, false);
      assert text[1] != 'x';
    } else {
      NumberOfDigits(lun, false);
      assert text[0] != '-';
      assert |text| > 1 ==> text[1] != 'x';
    }
  }

  lemma DashesInLunText(lun: int)
    ensures var text := LunText(lun);
      text != "" && forall i :: 0 < i < |text| ==> text[i] != '-'
  {
    if lun > 255 {
      LargeLunText(lun);
      PaddedHex(lun);
    }
  }

  /** "-lun-" and the LUN can be told from the end of the path, whatever the target's name. */
  lemma EndingInjective(target0: string, lun0: int, target1: string, lun1: int)
    requires target0 + "-lun-" + LunText(lun0) == target1 + "-lun-" + LunText(lun1)
    requires |LunText(lun0)| <= |LunText(lun1)|
    ensures target0 == target1 && lun0 == lun1
  {
    var text0, text1 := LunText(lun0), LunText(lun1);
    var whole := target0 + "-lun-" + text0;
    assert whole == target1 + "-lun-" + text1;
    DashesInLunText(lun1);
    var extra := |text1| - |text0|;
    var dash := |whole| - |text0| - 1;
    assert whole[dash] == '-' && whole[dash - 1] == 'n';
    assert extra == 0;
    assert whole[|whole| - |text0|..] == text0 && whole[|whole| - |text1|..] == text1;
    LunTextReadsBack(lun0);
    LunTextReadsBack(lun1);
    assert whole[..|whole| - |text0| - 5] == target0 == target1;
  }

  /** What follows the fixed start of the path. */
  function Middle(portal: string, target: string): string {
    portal + "-iscsi-" + target
  }

  lemma Glue(s: string, a: string, b: string, c: string)
    ensures s + a + b + c == s + (a + b + c)
  {
  }

  lemma DevPathParts(portal: string, target: string, lun: int)
    ensures ConstructDevByPath(portal, target, lun) ==
            "/dev/disk/by-path/ip-" + (Middle(portal, target) + "-lun-" + LunText(lun))
  {
    var start := "/dev/disk/by-path/ip-";
    var front := start + portal;
    Glue(front, "-", "iscsi", "-");
    Glue(front + "-iscsi-" + target, "-", "lun", "-");
    Glue(start, portal, "-iscsi-", target);
    Glue(start, Middle(portal, target), "-lun-", LunText(lun));
  }

  /** Two device paths are the same exactly when the LUNs are and portal and target read the same in a row. */
  lemma SamePathExactly(portal0: string, target0: string, lun0: int, portal1: string, target1: string, lun1: int)
    ensures ConstructDevByPath(portal0, target0, lun0) == ConstructDevByPath(portal1, target1, lun1) <==>
            lun0 == lun1 && portal0 + "-iscsi-" + target0 == portal1 + "-iscsi-" + target1
  {
    var start := "/dev/disk/by-path/ip-";
    var end0, end1 := Middle(portal0, target0) + "-lun-" + LunText(lun0), Middle(portal1, target1) + "-lun-" + LunText(lun1);
    DevPathParts(portal0, target0, lun0);
    DevPathParts(portal1, target1, lun1);
    if start + end0 == start + end1 {
      assert (start + end0)[|start|..] == end0 && (start + end1)[|start|..] == end1;
      if |LunText(lun0)| <= |LunText(lun1)| {
        EndingInjective(Middle(portal0, target0), lun0, Middle(portal1, target1), lun1);
      } else {
        EndingInjective(Middle(portal1, target1), lun1, Middle(portal0, target0), lun0);
      }
    }
  }

  /** One portal's start of the path may be continued into the other's. */
  predicate Overlap(portal0: string, portal1: string) {
    portal0 + "-iscsi-" <= portal1 + "-iscsi-" || portal1 + "-iscsi-" <= portal0 + "-iscsi-"
  }

  lemma OneOverlaps(portal0: string, target0: string, portal1: string, target1: string)
    requires portal0 + "-iscsi-" + target0 == portal1 + "-iscsi-" + target1
    ensures Overlap(portal0, portal1)
  {
    var start0, start1 := portal0 + "-iscsi-", portal1 + "-iscsi-";
    var whole := start0 + target0;
    assert whole[..|start0|] == start0 && whole[..|start1|] == start1;
  }

  /** Portals that overlap do collide: what one has more goes to the front of the other's target. */
  lemma OverlapCollides(portal0: string, portal1: string, target1: string, lun: int)
    requires portal0 + "-iscsi-" <= portal1 + "-iscsi-"
    ensures var more := (portal1 + "-iscsi-")[|portal0 + "-iscsi-"|..];
      ConstructDevByPath(portal0, more + target1, lun) == ConstructDevByPath(portal1, target1, lun)
  {
    var start0, start1 := portal0 + "-iscsi-", portal1 + "-iscsi-";
    var more := start1[|start0|..];
    assert start1 == start0 + more;
    assert start0 + (more + target1) == (start0 + more) + target1;
    SamePathExactly(portal0, more + target1, lun, portal1, target1, lun);
  }

  /** Which portals can be told apart by the device paths: some device of the one has the path of some device of the
      other exactly when they overlap. */
  lemma PortalsCollideExactly(portal0: string, portal1: string)
    ensures (exists target0, lun0, target1, lun1 ::
               ConstructDevByPath(portal0, target0, lun0) == ConstructDevByPath(portal1, target1, lun1))
            <==> Overlap(portal0, portal1)
  {
    if target0, lun0, target1, lun1 :|
      ConstructDevByPath(portal0, target0, lun0) == ConstructDevByPath(portal1, target1, lun1)
    {
      SamePathExactly(portal0, target0, lun0, portal1, target1, lun1);
      OneOverlaps(portal0, target0, portal1, target1);
    } else if portal0 + "-iscsi-" <= portal1 + "-iscsi-" {
      OverlapCollides(portal0, portal1, "", 0);
    } else if portal1 + "-iscsi-" <= portal0 + "-iscsi-" {
      OverlapCollides(portal1, portal0, "", 0);
    }
  }

  /** A "-" is needed for that: where a portal goes on, the other's "-iscsi-" begins. */
  lemma OverlapNeedsDash(portal0: string, portal1: string)
    requires portal0 != portal1 && portal0 + "-iscsi-" <= portal1 + "-iscsi-"
    ensures portal0 + "-" <= portal1
  {
    var start0, start1 := portal0 + "-iscsi-", portal1 + "-iscsi-";
    assert start1[..|portal0|] == portal0 == start0[..|portal0|];
    assert start0[|portal0|] == '-' == start1[|portal0|];
    assert start1[..|portal1|] == portal1;
    assert portal1[..|portal0| + 1] == portal0 + "-";
  }

  /** So one portal's devices never share a path, nor do those of portals that do not overlap, as when neither
      holds a "-". */
  lemma DevPathInjective(portal0: string, target0: string, lun0: int, portal1: string, target1: string, lun1: int)
    requires ConstructDevByPath(portal0, target0, lun0) == ConstructDevByPath(portal1, target1, lun1)
    ensures Overlap(portal0, portal1)
    ensures portal0 == portal1 ==> target0 == target1 && lun0 == lun1
    ensures '-' !in portal0 && '-' !in portal1 ==> portal0 == portal1
  {
    SamePathExactly(portal0, target0, lun0, portal1, target1, lun1);
    OneOverlaps(portal0, target0, portal1, target1);
    if portal0 == portal1 {
      var start := portal0 + "-iscsi-";
      assert (start + target0)[|start|..] == target0 && (start + target1)[|start|..] == target1;
    } else if portal0 + "-iscsi-" <= portal1 + "-iscsi-" {
      OverlapNeedsDash(portal0, portal1);
      assert portal1[|portal0|] == '-';
    } else {
      OverlapNeedsDash(portal1, portal0);
      assert portal0[|portal1|] == '-';
    }
  }

  /** One family that does collide: the text around an "-iscsi-" in a portal can move to the target. */
  lemma DashedPortalCollides(portal: string, middle: string, target: string, lun: int)
    ensures ConstructDevByPath(portal + "-iscsi-" + middle, target, lun) ==
            ConstructDevByPath(portal, middle + "-iscsi-" + target, lun)
  {
    var start, word := portal + "-iscsi-", "-iscsi-";
    assert (start + middle) + word == start + (middle + word);
    assert ((start + middle) + word)[|start|..] == middle + word;
    OverlapCollides(portal, portal + "-iscsi-" + middle, target, lun);
  }

  /** And one with dashes that does not: names that differ where both still go on. */
  lemma DashesMayDiffer(portal0: string, target0: string, lun0: int, portal1: string, target1: string, lun1: int, i: nat)
    requires i < |portal0| && i < |portal1| && portal0[i] != portal1[i]
    ensures ConstructDevByPath(portal0, target0, lun0) != ConstructDevByPath(portal1, target1, lun1)
  {
    assert (portal0 + "-iscsi-")[i] == portal0[i] && (portal1 + "-iscsi-")[i] == portal1[i];
    if ConstructDevByPath(portal0, target0, lun0) == ConstructDevByPath(portal1, target1, lun1) {
      DevPathInjective(portal0, target0, lun0, portal1, target1, lun1);
    }
  }
}
