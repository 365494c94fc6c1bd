/**
 * One-time codes (backend/controllers/authController.js): `generateOTP`, the
 * OTP record collection, `OTP.deleteMany({ email })` followed by `OTP.create`,
 * and `OTP.findOne({ email }).sort({ createdAt: -1 })`.
 */
module Otp {
  import opened Wrappers
  import Seqs

  /** `crypto.randomInt(100000, 999999)`: the lower bound is inclusive, the upper bound exclusive. */
  const CodeMin := 100000
  const CodeBound := 999999

  /** A code is accepted until 10 minutes (in milliseconds) after its record was created. */
  const CodeLifetime := 10 * 60 * 1000

  // ------------------------------------------------------------ decimal text

  predicate IsDigitChar(c: char) {
    '0' <= c <= '9'
  }

  predicate AllDigits(s: string) {
    forall i :: 0 <= i < |s| ==> IsDigitChar(s[i])
  }

  function DigitChar(d: nat): char
    requires d < 10
  {
    ('0' as int + d) as char
  }

  function DigitValue(c: char): nat
    requires IsDigitChar(c)
  {
    c as int - '0' as int
  }

  /** `Number.prototype.toString()` on a natural number. */
  function DecimalString(n: nat): (s: string)
    ensures |s| >= 1 && AllDigits(s)
    ensures s[0] == '0' ==> n == 0
    decreases n
  {
    if n < 10 then [DigitChar(n)] else DecimalString(n / 10) + [DigitChar(n % 10)]
  }

  /** The number a string of decimal digits denotes. */
  function DecimalValue(s: string): nat
    requires AllDigits(s)
  {
    if s == [] then 0 else DecimalValue(s[..|s| - 1]) * 10 + DigitValue(s[|s| - 1])
  }

  function Pow10(k: nat): nat {
    if k == 0 then 1 else 10 * Pow10(k - 1)
  }

  /** Reading back the decimal text of `n` gives `n`. */
  lemma {:induction false} DecimalRoundTrip(n: nat)
    ensures DecimalValue(DecimalString(n)) == n
    decreases n
  {
    if n >= 10 {
      var s := DecimalString(n);
      assert s[..|s| - 1] == DecimalString(n / 10);
      DecimalRoundTrip(n / 10);
    }
  }

  /** A number with `k` decimal digits is written with exactly `k` characters. */
  lemma {:induction false} DecimalLength(n: nat, k: nat)
    requires k >= 1 && Pow10(k - 1) <= n < Pow10(k)
    ensures |DecimalString(n)| == k
    decreases k
  {
    if k > 1 {
      assert n >= 10 by { PowAtLeastTen(k - 1); }
      DecimalLength(n / 10, k - 1);
    } else {
      assert n < 10;
    }
  }

  lemma {:induction false} PowAtLeastTen(k: nat)
    requires k >= 1
    ensures Pow10(k) >= 10
  {
    if k > 1 { PowAtLeastTen(k - 1); }
  }

  // ---------------------------------------------------------------- the codes

  /** What `generateOTP` can return: six decimal digits without a leading zero, below the generator's bound. */
  predicate IsOtpCode(code: string) {
    && |code| == 6
    && AllDigits(code)
    && code[0] != '0'
    && CodeMin <= DecimalValue(code) < CodeBound
  }

  /** `generateOTP`: a value drawn from the generator's range, written in decimal. */
  method GenerateOtp() returns (code: string)
    ensures IsOtpCode(code)
  {
    var n :| CodeMin <= n < CodeBound;
    code := DecimalString(n);
    DecimalRoundTrip(n);
    assert Pow10(5) == 100000 && Pow10(6) == 1000000 by {
      assert Pow10(1) == 10 && Pow10(2) == 100 && Pow10(3) == 1000 && Pow10(4) == 10000;
    }
    DecimalLength(n, 6);
  }

  // -------------------------------------------------------------- the records

  datatype OtpRecord = OtpRecord(email: string, code: string, createdAt: nat)

  /** `OTP.deleteMany({ email })` */
  function WithoutEmail(rs: seq<OtpRecord>, email: string): (r: seq<OtpRecord>)
    ensures |r| <= |rs|
    ensures forall i :: 0 <= i < |r| ==> r[i] in rs && r[i].email != email
    ensures forall i :: 0 <= i < |rs| && rs[i].email != email ==> rs[i] in r
    ensures Seqs.IsSubsequence(r, rs)
  {
    Seqs.FilterIsSubsequence(rs, (r: OtpRecord) => r.email != email);
    Seqs.Filter(rs, (r: OtpRecord) => r.email != email)
  }

  /** The records an `OTP.find({ email })` would see, in insertion order. */
  function ForEmail(rs: seq<OtpRecord>, email: string): seq<OtpRecord> {
    Seqs.Filter(rs, (r: OtpRecord) => r.email == email)
  }

  /** `registerUser`'s update of the collection: delete every record for the email, then insert the new one. */
  function Issue(rs: seq<OtpRecord>, rec: OtpRecord): (r: seq<OtpRecord>)
    ensures |r| >= 1 && r[|r| - 1] == rec
    ensures forall i :: 0 <= i < |r| - 1 ==> r[i] in rs && r[i].email != rec.email
  {
    WithoutEmail(rs, rec.email) + [rec]
  }

  /** No two records share an email: at most one live code per email. */
  predicate OnePerEmail(rs: seq<OtpRecord>) {
    rs == [] || ((forall i :: 1 <= i < |rs| ==> rs[i].email != rs[0].email) && OnePerEmail(rs[1..]))
  }

  /**
   * `OTP.findOne({ email }).sort({ createdAt: -1 })`: the record for `email` with the
   * latest creation time; among equal times the later-inserted one.
   */
  function Newest(rs: seq<OtpRecord>, email: string): (r: Option<OtpRecord>)
    ensures r.None? <==> forall i :: 0 <= i < |rs| ==> rs[i].email != email
    ensures r.Some? ==> r.value in rs && r.value.email == email
    ensures r.Some? ==> forall i :: 0 <= i < |rs| && rs[i].email == email ==> rs[i].createdAt <= r.value.createdAt
  {
    if rs == [] then None
    else
      var rest := Newest(rs[1..], email);
      if rs[0].email != email then rest
      else if rest.Some? && rest.value.createdAt >= rs[0].createdAt then rest
      else Some(rs[0])
  }

  /** Deleting records never creates two records for one email. */
  lemma {:induction false} FilterKeepsOnePerEmail(rs: seq<OtpRecord>, keep: OtpRecord -> bool)
    requires OnePerEmail(rs)
    ensures OnePerEmail(Seqs.Filter(rs, keep))
  {
    if rs != [] {
      FilterKeepsOnePerEmail(rs[1..], keep);
      var tail := Seqs.Filter(rs[1..], keep);
      if keep(rs[0]) {
        var r := Seqs.Filter(rs, keep);
        assert r[1..] == tail;
        forall i | 1 <= i < |r| ensures r[i].email != r[0].email {
          assert r[i] == tail[i - 1] && tail[i - 1] in rs[1..];
        }
      }
    }
  }

  /** Appending a record for an email that has none keeps one record per email. */
  lemma {:induction false} AppendKeepsOnePerEmail(rs: seq<OtpRecord>, rec: OtpRecord)
    requires OnePerEmail(rs)
    requires forall i :: 0 <= i < |rs| ==> rs[i].email != rec.email
    ensures OnePerEmail(rs + [rec])
  {
    if rs != [] {
      AppendKeepsOnePerEmail(rs[1..], rec);
      assert (rs + [rec])[1..] == rs[1..] + [rec];
    }
  }

  /**
   * After `Issue`, the records for the issued email are exactly the new record, the
   * records for every other email are what they were, and one record per email still holds.
   */
  lemma IssueReplaces(rs: seq<OtpRecord>, rec: OtpRecord, email: string)
    requires OnePerEmail(rs)
    ensures OnePerEmail(Issue(rs, rec))
    ensures ForEmail(Issue(rs, rec), email) == if email == rec.email then [rec] else ForEmail(rs, email)
  {
    var kept := WithoutEmail(rs, rec.email);
    FilterKeepsOnePerEmail(rs, (r: OtpRecord) => r.email != rec.email);
    AppendKeepsOnePerEmail(kept, rec);
    Seqs.FilterAppend(kept, [rec], (r: OtpRecord) => r.email == email);
    assert [rec][1..] == [];
    if email == rec.email {
      Seqs.FilterDropsAll(kept, (r: OtpRecord) => r.email == email);
    } else {
      Seqs.FilterNarrows(rs, (r: OtpRecord) => r.email != rec.email, (r: OtpRecord) => r.email == email);
    }
  }

  /** With one record per email, the newest record for an email is its only record. */
  lemma {:induction false} NewestIsOnly(rs: seq<OtpRecord>, k: nat)
    requires OnePerEmail(rs) && k < |rs|
    ensures Newest(rs, rs[k].email) == Some(rs[k])
  {
    if k == 0 {
      assert Newest(rs[1..], rs[0].email).None?;
    } else {
      NewestIsOnly(rs[1..], k - 1);
    }
  }

  /** Right after `Issue`, the record `verifyOTP` consults for the email is the issued one. */
  lemma NewestAfterIssue(rs: seq<OtpRecord>, rec: OtpRecord)
    requires OnePerEmail(rs)
    ensures Newest(Issue(rs, rec), rec.email) == Some(rec)
  {
    IssueReplaces(rs, rec, rec.email);
    var after := Issue(rs, rec);
    NewestIsOnly(after, |after| - 1);
  }

  /** The boundary of the window: `now > createdAt + 600000` rejects. */
  predicate Expired(rec: OtpRecord, now: nat) {
    now > rec.createdAt + CodeLifetime
  }

  /** A code is still good at exactly ten minutes, refused one millisecond later, and stays refused. */
  lemma ExpiryWindow(rec: OtpRecord, now: nat, later: nat)
    ensures !Expired(rec, rec.createdAt + 600000)
    ensures Expired(rec, rec.createdAt + 600001)
    ensures Expired(rec, now) && now <= later ==> Expired(rec, later)
    ensures now <= rec.createdAt ==> !Expired(rec, now)
  {
  }
}
