/** The windows of the summary schedule: consecutive stretches of time of one length. */
module Windows {
  function BucketStart(now: nat, window: nat): nat
    requires window > 0
  {
    now / window * window
  }

  lemma BucketContains(now: nat, window: nat)
    requires window > 0
    ensures BucketStart(now, window) <= now < BucketStart(now, window) + window
  {}

  lemma MoreIsLonger(a: nat, b: nat, window: nat)
    requires window > 0 && a < b
    ensures a * window < b * window
  {}

  lemma BucketIsTheWindow(now: nat, later: nat, window: nat)
    requires window > 0
    ensures BucketStart(now, window) == BucketStart(later, window) <==> now / window == later / window
  {
    var a, b := now / window, later / window;
    if a < b {
      MoreIsLonger(a, b, window);
    } else if b < a {
      MoreIsLonger(b, a, window);
    }
  }
}
