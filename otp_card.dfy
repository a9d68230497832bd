/**
 * The display rules of src/components/OtpCard.jsx: the seconds left in the
 * current TOTP time step (RFC 6238 section 4), the colour of the countdown,
 * and how the issuer, the label and the code are shown.
 */
module OtpCard {
  import opened Text

  /** `Math.floor(Date.now() / 1000)`: `Date.now()` is never negative, and `/` on a positive divisor floors. */
  function Epoch(ms: nat): (s: nat)
    ensures s * 1000 <= ms < s * 1000 + 1000
  {
    ms / 1000
  }

  lemma {:induction false} MulAtLeast(d: int, p: int)
    requires d >= 1 && p > 0
    ensures d * p >= p
    decreases d
  {
    if d > 1 {
      MulAtLeast(d - 1, p);
      assert d * p == (d - 1) * p + p;
    }
  }

  /** Quotient and remainder are unique: `x = q * p + r` with `0 <= r < p` fixes both. */
  lemma DivModUnique(x: int, p: int, q: int, r: int)
    requires p > 0 && 0 <= r < p && x == q * p + r
    ensures x / p == q && x % p == r
  {
    var d := x / p - q;
    assert d * p == r - x % p by {
      assert x == (x / p) * p + x % p;
      assert d * p == (x / p) * p - q * p;
    }
    if d >= 1 {
      MulAtLeast(d, p);
    } else if d <= -1 {
      MulAtLeast(-d, p);
    }
  }

  /** `totp.period - (epoch % totp.period)`; the library only builds a TOTP with a positive period. */
  function Remaining(epoch: nat, period: nat): (left: nat)
    requires period > 0
    ensures 1 <= left <= period
    ensures (epoch + left) % period == 0
  {
    var left := period - epoch % period;
    assert epoch + left == (epoch / period + 1) * period + 0 by {
      assert epoch == (epoch / period) * period + epoch % period;
      assert (epoch / period + 1) * period == (epoch / period) * period + period;
    }
    DivModUnique(epoch + left, period, epoch / period + 1, 0);
    left
  }

  /** The countdown falls by one each second and starts again at the full period when a new time step begins. */
  lemma RemainingTicks(epoch: nat, period: nat)
    requires period > 0
    ensures Remaining(epoch, period) > 1 ==> Remaining(epoch + 1, period) == Remaining(epoch, period) - 1
    ensures Remaining(epoch, period) == 1 ==> Remaining(epoch + 1, period) == period
  {
    var q, r := epoch / period, epoch % period;
    assert epoch == q * period + r;
    if r + 1 < period {
      DivModUnique(epoch + 1, period, q, r + 1);
    } else {
      assert (q + 1) * period == q * period + period;
      DivModUnique(epoch + 1, period, q + 1, 0);
    }
  }

  const Red := "text-red-500"
  const Normal := "text-primary"

  /** `timeLeft < 5 ? "text-red-500" : "text-primary"` */
  function ProgressColor(timeLeft: int): (c: string)
    ensures c == Red <==> timeLeft < 5
    ensures c == Normal <==> timeLeft >= 5
  {
    if timeLeft < 5 then Red else Normal
  }

  /** The countdown is red in the last four seconds of each time step (all of it when the period is under five seconds). */
  lemma RedAtEndOfStep(epoch: nat, period: nat)
    requires period > 0
    ensures ProgressColor(Remaining(epoch, period)) == Red <==> epoch % period > period - 5
  {
  }

  /** `totp.issuer || "Unknown Issuer"` */
  function IssuerShown(issuer: string): (s: string)
    ensures issuer != "" ==> s == issuer
    ensures issuer == "" ==> s == "Unknown Issuer"
  {
    if issuer != "" then issuer else "Unknown Issuer"
  }

  /** A string with the separator in it splits into at least two parts. */
  lemma {:induction false} SplitAtSeparator(s: string, sep: char)
    requires sep in s
    ensures |Split(s, sep)| >= 2
  {
    if s[0] != sep {
      SplitAtSeparator(s[1..], sep);
    }
  }

  /** `label.includes(":") ? label.split(":")[1].trim() : label` */
  function LabelShown(totpLabel: string): (s: string)
    ensures ':' !in totpLabel ==> s == totpLabel
  {
    if ':' in totpLabel then
      SplitAtSeparator(totpLabel, ':');
      Trim(Split(totpLabel, ':')[1])
    else totpLabel
  }

  /** For the usual `issuer:account` label the card shows the trimmed account name. */
  lemma IssuerAccountLabel(issuer: string, account: string)
    requires ':' !in issuer && ':' !in account
    ensures LabelShown(issuer + ":" + account) == Trim(account)
  {
    var parts := [issuer, account];
    assert Join(parts[1..], ':') == account;
    assert Join(parts, ':') == issuer + ":" + account;
    SplitJoin(parts, ':');
  }

  /** A label with two colons shows only its middle segment: the third one is dropped. */
  lemma ThreeSegmentLabel(a: string, b: string, c: string)
    requires ':' !in a && ':' !in b && ':' !in c
    ensures LabelShown(a + ":" + b + ":" + c) == Trim(b)
  {
    var parts := [a, b, c];
    assert Join(parts[1..][1..], ':') == c;
    assert Join(parts[1..], ':') == b + ":" + c;
    assert Join(parts, ':') == a + ":" + b + ":" + c;
    SplitJoin(parts, ':');
  }

  /** `{code.slice(0, 3)} {code.slice(3)}` */
  function CodeShown(code: string): (s: string)
    ensures |s| == |code| + 1
    ensures var k := if |code| < 3 then |code| else 3;
      s[k] == ' ' && s[..k] + s[k + 1..] == code
  {
    var k := if |code| < 3 then |code| else 3;
    var s := code[..k] + " " + code[k..];
    assert s[..k] == code[..k] && s[k + 1..] == code[k..];
    assert code == code[..k] + code[k..];
    s
  }

  /** A six-digit code shows as two groups of three. */
  lemma SixDigitCode(code: string)
    requires |code| == 6
    ensures CodeShown(code) == code[..3] + " " + code[3..]
  {
  }
}
