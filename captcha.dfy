/** `_refreshCaptcha`: the captcha image is reloaded from its `data-src` with a
    cache-busting timestamp parameter appended. */
module Captcha {
  import opened Strings

  /** The query-string joiner: `&rnd=` when `data-src` already carries `?id`,
      `?rnd=` otherwise. */
  function JoinPrefix(dataSrc: string): (p: string)
    ensures |p| == 5 && p[1..] == "rnd="
    ensures p[0] == '&' <==> Contains(dataSrc, "?id")
    ensures p[0] == '?' <==> !Contains(dataSrc, "?id")
  {
    if Contains(dataSrc, "?id") then "&rnd=" else "?rnd="
  }

  /** The new `src` at time `now` (milliseconds since the epoch). */
  function CaptchaUrl(dataSrc: string, now: nat): (url: string)
    ensures |url| > |dataSrc| + 5
    ensures url[..|dataSrc|] == dataSrc
    ensures url[|dataSrc|..|dataSrc| + 5] == JoinPrefix(dataSrc)
    ensures ParseNat(url[|dataSrc| + 5..]) == Some(now)
  {
    var url := dataSrc + JoinPrefix(dataSrc) + NatToString(now);
    assert url[|dataSrc| + 5..] == NatToString(now);
    ParseNatToString(now);
    url
  }

  /** Refreshing at two different times asks for two different URLs, so the
      browser cannot serve the old image from its cache. */
  lemma CaptchaUrlBustsCache(dataSrc: string, t1: nat, t2: nat)
    requires t1 != t2
    ensures CaptchaUrl(dataSrc, t1) != CaptchaUrl(dataSrc, t2)
  {
    var n := |dataSrc| + 5;
    assert ParseNat(CaptchaUrl(dataSrc, t1)[n..]) != ParseNat(CaptchaUrl(dataSrc, t2)[n..]);
  }
}
