/** The phone fields (`#phone-c`, `#phone`): on every change, keyup, input or
    click, a value holding any character other than an ASCII digit loses every
    character that is not a digit, a comma or a plus sign. */
module PhoneInput {
  import opened Strings

  /** The characters `/[^0-9,\+]/g` leaves in place. */
  predicate Allowed(c: char) {
    IsDigit(c) || c == ',' || c == '+'
  }

  /** `value.replace(/[^0-9,\+]/g, "")`. */
  function KeepAllowed(s: string): (r: string)
    ensures |r| <= |s|
    ensures forall k :: 0 <= k < |r| ==> Allowed(r[k])
    ensures (forall k :: 0 <= k < |s| ==> Allowed(s[k])) ==> r == s
  {
    if s == [] then []
    else if Allowed(s[0]) then [s[0]] + KeepAllowed(s[1..])
    else KeepAllowed(s[1..])
  }

  /** The value the handler leaves: unchanged when it is all digits
      (`value.match(/[^0-9]/g)` finds nothing), filtered otherwise. */
  function Sanitise(value: string): (r: string)
    ensures forall k :: 0 <= k < |r| ==> Allowed(r[k])
    ensures AllDigits(value) ==> r == value
  {
    if AllDigits(value) then value else KeepAllowed(value)
  }

  /** The digits of a text, in order. */
  function Digits(s: string): (r: string)
    ensures AllDigits(r)
  {
    if s == [] then []
    else if IsDigit(s[0]) then [s[0]] + Digits(s[1..])
    else Digits(s[1..])
  }

  /** Filtering keeps every digit, in order. */
  lemma {:induction false} KeepAllowedKeepsDigits(s: string)
    ensures Digits(KeepAllowed(s)) == Digits(s)
  {
    if s != [] {
      KeepAllowedKeepsDigits(s[1..]);
      if Allowed(s[0]) {
        var r := [s[0]] + KeepAllowed(s[1..]);
        assert r[0] == s[0] && r[1..] == KeepAllowed(s[1..]);
      }
    }
  }

  /** The filter works character by character: filtering two texts one after the
      other is filtering each and joining the results. */
  lemma {:induction false} KeepAllowedAppend(a: string, b: string)
    ensures KeepAllowed(a + b) == KeepAllowed(a) + KeepAllowed(b)
  {
    if a != [] {
      assert (a + b)[0] == a[0];
      assert (a + b)[1..] == a[1..] + b;
      KeepAllowedAppend(a[1..], b);
    } else {
      assert a + b == b;
    }
  }

  /** A single character is kept exactly when it is a digit, `,` or `+`; with
      KeepAllowedAppend this fixes the result: every allowed character, in place. */
  lemma KeepAllowedSingle(c: char)
    ensures KeepAllowed([c]) == if Allowed(c) then [c] else []
  {
    assert [c][1..] == [];
  }

  /** The handler never drops or reorders a digit the user typed. */
  lemma SanitiseKeepsDigits(value: string)
    ensures Digits(Sanitise(value)) == Digits(value)
  {
    if !AllDigits(value) {
      KeepAllowedKeepsDigits(value);
    }
  }

  /** Filtering shortens the text exactly when it holds a character other than a
      digit, a comma or a plus sign. */
  lemma {:induction false} KeepAllowedRemoves(s: string)
    ensures |KeepAllowed(s)| == |s| <==> forall k :: 0 <= k < |s| ==> Allowed(s[k])
  {
    if s != [] {
      KeepAllowedRemoves(s[1..]);
      if !Allowed(s[0]) {
        assert |KeepAllowed(s)| < |s|;
      } else {
        assert forall k :: 1 <= k < |s| ==> s[k] == s[1..][k - 1];
      }
    }
  }

  /** The all-digits shortcut gives what the filter would: the handler's value is
      always the filtered text. */
  lemma SanitiseIsFilter(value: string)
    ensures Sanitise(value) == KeepAllowed(value)
  {
  }

  /** The handler runs on every event; running it again changes nothing. */
  lemma SanitiseIdempotent(value: string)
    ensures Sanitise(Sanitise(value)) == Sanitise(value)
  {
    var r := Sanitise(value);
    if !AllDigits(r) {
      assert KeepAllowed(r) == r;
    }
  }

  /** Example: a space in a phone number is dropped; the plus sign stays. */
  lemma SanitiseExample()
    ensures Sanitise("+3 8") == "+38"
  {
    var v := "+3 8";
    assert !IsDigit(v[0]);
    assert v[1..] == "3 8" && v[1..][1..] == " 8" && v[1..][1..][1..] == "8";
    assert KeepAllowed("8") == "8";
    assert KeepAllowed(" 8") == "8";
    assert KeepAllowed("3 8") == "38";
  }
}
