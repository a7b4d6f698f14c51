/** Unit prefixes for byte counts (src/render/disk_usage/units.rs): the binary scale
    (powers of 1024) and the SI scale (powers of 1000), the prefix chosen for a value,
    and the label each prefix displays. */
module Units {
  import opened Entries

  /** Which scale sizes are shown in; binary unless configured otherwise. */
  datatype PrefixKind = Bin | Si

  const DefaultKind: PrefixKind := Bin

  datatype BinPrefix = Base | Kibi | Mebi | Gibi | Tebi

  datatype SiPrefix = Base | Kilo | Mega | Giga | Tera

  function Pow(b: nat, e: nat): nat {
    if e == 0 then 1 else b * Pow(b, e - 1)
  }

  // ---------------------------------------------------------------------------
  // Ranks: the position of a prefix on its scale

  function BinRank(p: BinPrefix): (k: nat)
    ensures k <= 4
  {
    match p
    case Base => 0
    case Kibi => 1
    case Mebi => 2
    case Gibi => 3
    case Tebi => 4
  }

  function SiRank(p: SiPrefix): (k: nat)
    ensures k <= 4
  {
    match p
    case Base => 0
    case Kilo => 1
    case Mega => 2
    case Giga => 3
    case Tera => 4
  }

  /** The next larger binary prefix. */
  function BinNext(p: BinPrefix): (q: BinPrefix)
    requires p != BinPrefix.Tebi
    ensures BinRank(q) == BinRank(p) + 1
  {
    match p
    case Base => Kibi
    case Kibi => Mebi
    case Mebi => Gibi
    case Gibi => Tebi
  }

  /** The next larger SI prefix. */
  function SiNext(p: SiPrefix): (q: SiPrefix)
    requires p != SiPrefix.Tera
    ensures SiRank(q) == SiRank(p) + 1
  {
    match p
    case Base => Kilo
    case Kilo => Mega
    case Mega => Giga
    case Giga => Tera
  }

  // ---------------------------------------------------------------------------
  // Base values

  /** `base_value` of a binary prefix. */
  function BinBase(p: BinPrefix): nat {
    match p
    case Base => 1
    case Kibi => 1024
    case Mebi => 1_048_576
    case Gibi => 1_073_741_824
    case Tebi => 1_099_511_627_776
  }

  /** `base_value` of an SI prefix. */
  function SiBase(p: SiPrefix): nat {
    match p
    case Base => 1
    case Kilo => 1_000
    case Mega => 1_000_000
    case Giga => 1_000_000_000
    case Tera => 1_000_000_000_000
  }

  /** The binary base values are 2 to the power ten times the rank, i.e. successive powers of 1024. */
  lemma BinBaseIsPower(p: BinPrefix)
    ensures BinBase(p) == Pow(1024, BinRank(p))
    ensures BinBase(p) == Pow(2, 10 * BinRank(p))
  {
    PowMul(2, 10, BinRank(p));
    assert Pow(2, 10) == 1024 by {
      PowStep(2, 10);
    }
    assert Pow(1024, 1) == 1024;
    assert Pow(1024, 2) == 1024 * Pow(1024, 1);
    assert Pow(1024, 3) == 1024 * Pow(1024, 2);
    assert Pow(1024, 4) == 1024 * Pow(1024, 3);
  }

  /** The SI base values are 10 to the power three times the rank, i.e. successive powers of 1000. */
  lemma SiBaseIsPower(p: SiPrefix)
    ensures SiBase(p) == Pow(1000, SiRank(p))
    ensures SiBase(p) == Pow(10, 3 * SiRank(p))
  {
    PowMul(10, 3, SiRank(p));
    assert Pow(10, 3) == 1000 by {
      PowStep(10, 3);
    }
    assert Pow(1000, 1) == 1000;
    assert Pow(1000, 2) == 1000 * Pow(1000, 1);
    assert Pow(1000, 3) == 1000 * Pow(1000, 2);
    assert Pow(1000, 4) == 1000 * Pow(1000, 3);
  }

  lemma PowStep(b: nat, e: nat)
    ensures Pow(b, e) == if e == 0 then 1 else b * Pow(b, e - 1)
  {
  }

  lemma {:induction false} PowAdd(b: nat, e: nat, f: nat)
    ensures Pow(b, e + f) == Pow(b, e) * Pow(b, f)
    decreases f
  {
    if f > 0 {
      PowAdd(b, e, f - 1);
      assert Pow(b, e + f) == b * Pow(b, e + f - 1);
    }
  }

  lemma {:induction false} PowMul(b: nat, e: nat, k: nat)
    ensures Pow(b, e * k) == Pow(Pow(b, e), k)
    decreases k
  {
    if k > 0 {
      PowMul(b, e, k - 1);
      assert e * k == e + e * (k - 1);
      PowAdd(b, e, e * (k - 1));
    }
  }

  // ---------------------------------------------------------------------------
  // Choosing a prefix

  /** `value.log2() < e` for a value that is a whole number: the logarithm of a negative
      value is NaN, for which every comparison is false, and that of zero is minus
      infinity. */
  predicate Log2Below(v: int, e: nat) {
    0 <= v < Pow(2, e)
  }

  /** `value.log10() < e` for a value that is a whole number. */
  predicate Log10Below(v: int, e: nat) {
    0 <= v < Pow(10, e)
  }

  /** `From<f64> for BinPrefix`, on whole values. */
  function BinFrom(v: int): (p: BinPrefix)
    ensures v < 0 ==> p == BinPrefix.Tebi
  {
    if Log2Below(v, 10) then BinPrefix.Base
    else if Log2Below(v, 20) then Kibi
    else if Log2Below(v, 30) then Mebi
    else if Log2Below(v, 40) then Gibi
    else Tebi
  }

  /** `From<f64> for SiPrefix`, on whole values. */
  function SiFrom(v: int): (p: SiPrefix)
    ensures v < 0 ==> p == SiPrefix.Tera
  {
    if Log10Below(v, 3) then SiPrefix.Base
    else if Log10Below(v, 6) then Kilo
    else if Log10Below(v, 9) then Mega
    else if Log10Below(v, 12) then Giga
    else Tera
  }

  /** `v` lies in the range `p` is chosen for: at least its base value (or `p` is the
      smallest prefix) and below the next prefix's base value (or `p` is the largest). */
  predicate BinWithin(v: nat, p: BinPrefix) {
    && (p == BinPrefix.Base || BinBase(p) <= v)
    && (p == BinPrefix.Tebi || v < BinBase(BinNext(p)))
  }

  predicate SiWithin(v: nat, p: SiPrefix) {
    && (p == SiPrefix.Base || SiBase(p) <= v)
    && (p == SiPrefix.Tera || v < SiBase(SiNext(p)))
  }

  lemma BinThresholds()
    ensures Pow(2, 10) == 1024 && Pow(2, 20) == 1_048_576
    ensures Pow(2, 30) == 1_073_741_824 && Pow(2, 40) == 1_099_511_627_776
  {
    PowMul(2, 10, 2);
    PowMul(2, 10, 3);
    PowMul(2, 10, 4);
    BinBaseIsPower(Kibi);
    BinBaseIsPower(Mebi);
    BinBaseIsPower(Gibi);
    BinBaseIsPower(Tebi);
  }

  lemma SiThresholds()
    ensures Pow(10, 3) == 1_000 && Pow(10, 6) == 1_000_000
    ensures Pow(10, 9) == 1_000_000_000 && Pow(10, 12) == 1_000_000_000_000
  {
    SiBaseIsPower(Kilo);
    SiBaseIsPower(Mega);
    SiBaseIsPower(Giga);
    SiBaseIsPower(Tera);
  }

  /** The binary prefix chosen for a byte count is exactly the one whose range holds it:
      the largest prefix whose base value does not exceed the count. */
  lemma BinFromWithin(v: nat, p: BinPrefix)
    ensures BinFrom(v) == p <==> BinWithin(v, p)
  {
    BinThresholds();
  }

  /** The SI prefix chosen for a byte count is exactly the one whose range holds it. */
  lemma SiFromWithin(v: nat, p: SiPrefix)
    ensures SiFrom(v) == p <==> SiWithin(v, p)
  {
    SiThresholds();
  }

  /** A larger count never gets a smaller prefix. */
  lemma BinFromMonotone(v: nat, w: nat)
    requires v <= w
    ensures BinRank(BinFrom(v)) <= BinRank(BinFrom(w))
  {
    BinThresholds();
  }

  lemma SiFromMonotone(v: nat, w: nat)
    requires v <= w
    ensures SiRank(SiFrom(v)) <= SiRank(SiFrom(w))
  {
    SiThresholds();
  }

  /** The boundaries are exact. */
  lemma Boundaries()
    ensures BinFrom(0) == BinPrefix.Base && SiFrom(0) == SiPrefix.Base
    ensures BinFrom(1023) == BinPrefix.Base && BinFrom(1024) == Kibi
    ensures BinFrom(1_048_575) == Kibi && BinFrom(1_048_576) == Mebi
    ensures BinFrom(1_099_511_627_776) == Tebi
    ensures SiFrom(999) == SiPrefix.Base && SiFrom(1000) == Kilo
    ensures SiFrom(999_999) == Kilo && SiFrom(1_000_000) == Mega
    ensures SiFrom(1_000_000_000_000) == Tera
  {
    BinThresholds();
    SiThresholds();
  }

  // ---------------------------------------------------------------------------
  // Labels

  /** `Display for BinPrefix`. */
  function BinLabel(p: BinPrefix): string {
    match p
    case Base => "B"
    case Kibi => "KiB"
    case Mebi => "MiB"
    case Gibi => "GiB"
    case Tebi => "TiB"
  }

  /** `Display for SiPrefix`. */
  function SiLabel(p: SiPrefix): string {
    match p
    case Base => "B"
    case Kilo => "KB"
    case Mega => "MB"
    case Giga => "GB"
    case Tera => "TB"
  }

  /** Reading a binary label back. */
  function ParseBinLabel(s: string): Option<BinPrefix> {
    if s == "B" then Some(BinPrefix.Base)
    else if s == "KiB" then Some(Kibi)
    else if s == "MiB" then Some(Mebi)
    else if s == "GiB" then Some(Gibi)
    else if s == "TiB" then Some(Tebi)
    else None
  }

  /** Reading an SI label back. */
  function ParseSiLabel(s: string): Option<SiPrefix> {
    if s == "B" then Some(SiPrefix.Base)
    else if s == "KB" then Some(Kilo)
    else if s == "MB" then Some(Mega)
    else if s == "GB" then Some(Giga)
    else if s == "TB" then Some(Tera)
    else None
  }

  /** Each binary label names one prefix; every label is "B" or ends in "iB". */
  lemma BinLabelRoundTrip(p: BinPrefix)
    ensures ParseBinLabel(BinLabel(p)) == Some(p)
    ensures BinLabel(p) == "B" || (|BinLabel(p)| == 3 && BinLabel(p)[1..] == "iB")
  {
  }

  /** Each SI label names one prefix; every label ends in "B" and is at most two characters. */
  lemma SiLabelRoundTrip(p: SiPrefix)
    ensures ParseSiLabel(SiLabel(p)) == Some(p)
    ensures 1 <= |SiLabel(p)| <= 2 && SiLabel(p)[|SiLabel(p)| - 1] == 'B'
  {
  }

  /** Distinct prefixes show distinct labels. */
  lemma LabelsDistinct(p: BinPrefix, q: BinPrefix, s: SiPrefix, t: SiPrefix)
    ensures BinLabel(p) == BinLabel(q) ==> p == q
    ensures SiLabel(s) == SiLabel(t) ==> s == t
  {
    BinLabelRoundTrip(p);
    BinLabelRoundTrip(q);
    SiLabelRoundTrip(s);
    SiLabelRoundTrip(t);
  }
}
