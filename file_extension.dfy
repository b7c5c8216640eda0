/** The attachment controller's file-type check (`_validateFileExtension`):
    take the text after the last dot of the file name and look its lower-cased
    form up in the form's allow-list. */
module FileExtension {
  import opened Strings

  /** `>>> 0` reduces modulo 2^32. */
  const Uint32Modulus: int := 0x1_0000_0000

  /** `((d - 1) >>> 0) + 2` for a `lastIndexOf` result `d`: small for a dot
      after the first character, past 2^32 for -1 and 0. */
  function SliceStart(d: int): (start: nat)
    requires d >= -1
    ensures d < Uint32Modulus ==> start == if d <= 0 then d + 1 + Uint32Modulus else d + 1
  {
    var x := d - 1;
    var r := x % Uint32Modulus;
    assert x < Uint32Modulus ==> r == if x < 0 then x + Uint32Modulus else x by {
      if x < 0 {
        assert (x + Uint32Modulus) % Uint32Modulus == x % Uint32Modulus;
      }
    }
    r + 2
  }

  /** `s.slice(start)` for a non-negative `start`: empty once `start` passes the end. */
  function SliceFrom(s: string, start: nat): (r: string)
    ensures start >= |s| ==> r == ""
    ensures start < |s| ==> r == s[start..]
  {
    if start >= |s| then "" else s[start..]
  }

  /** `filename.slice(((filename.lastIndexOf(".") - 1) >>> 0) + 2)`, with the
      unsigned shift written out. */
  function ExtensionOf(filename: string): string {
    SliceFrom(filename, SliceStart(LastIndexOf(filename, '.')))
  }

  /** What the slice computes for any name a browser can hold (shorter than 2^32):
      no dot, or a single leading dot, gives the empty extension; otherwise the
      extension is everything after the last dot and itself has no dot. */
  lemma ExtensionOfSpec(filename: string)
    requires |filename| < Uint32Modulus
    ensures var d := LastIndexOf(filename, '.');
            && (d <= 0 ==> ExtensionOf(filename) == "")
            && (d > 0 ==> ExtensionOf(filename) == filename[d + 1..])
    ensures '.' !in ExtensionOf(filename)
  {
    var d := LastIndexOf(filename, '.');
    var start := SliceStart(d);
    if d <= 0 {
      assert start >= Uint32Modulus;
      assert ExtensionOf(filename) == "";
    } else {
      assert start == d + 1;
      var e := filename[d + 1..];
      assert ExtensionOf(filename) == e;
      assert forall k :: 0 <= k < |e| ==> e[k] == filename[d + 1 + k];
    }
  }

  /** The allow-list read at index `i`; past the end JavaScript reads `undefined`. */
  function EntryAt(allowed: seq<string>, i: nat): Option<string> {
    if i < |allowed| then Some(allowed[i]) else None
  }

  /** The source's loop `for (i = 0; i <= allowed.length; i++)`, from index `i` on;
      `undefined === ext` is false, so the extra step never matches. */
  function MatchesFrom(allowed: seq<string>, ext: string, i: nat): bool
    decreases |allowed| + 1 - i
  {
    if i > |allowed| then false
    else EntryAt(allowed, i) == Some(Lower(ext)) || MatchesFrom(allowed, ext, i + 1)
  }

  /** `_validateFileExtension(filename, validFileExtensions)`. */
  function ValidateFileExtension(filename: string, allowed: seq<string>): bool {
    var ext := ExtensionOf(filename);
    ext != "" && MatchesFrom(allowed, ext, 0)
  }

  /** The loop one past the end of the allow-list is a plain membership test. */
  lemma {:induction false} MatchesFromIsMembership(allowed: seq<string>, ext: string, i: nat)
    requires i <= |allowed| + 1
    ensures MatchesFrom(allowed, ext, i) <==> exists j :: i <= j < |allowed| && allowed[j] == Lower(ext)
    decreases |allowed| + 1 - i
  {
    if i <= |allowed| {
      MatchesFromIsMembership(allowed, ext, i + 1);
    }
  }

  /** A file is accepted iff its extension is non-empty and its lower-cased form
      is on the allow-list. */
  lemma ValidateFileExtensionIff(filename: string, allowed: seq<string>)
    ensures ValidateFileExtension(filename, allowed) <==>
            ExtensionOf(filename) != "" && Lower(ExtensionOf(filename)) in allowed
  {
    MatchesFromIsMembership(allowed, ExtensionOf(filename), 0);
  }

  /** The same check in terms of the file name itself: rejected when the name has
      no dot or only a leading one, otherwise decided by the text after the last dot. */
  lemma ValidateFileExtensionByName(filename: string, allowed: seq<string>)
    requires |filename| < Uint32Modulus
    ensures var d := LastIndexOf(filename, '.');
            && (d <= 0 ==> !ValidateFileExtension(filename, allowed))
            && (d > 0 ==> (ValidateFileExtension(filename, allowed) <==>
                           d + 1 < |filename| && Lower(filename[d + 1..]) in allowed))
  {
    ExtensionOfSpec(filename);
    ValidateFileExtensionIff(filename, allowed);
  }

  /** Example: upper-case extensions are accepted: only the file's side is lower-cased. */
  lemma UpperCaseAccepted()
    ensures ValidateFileExtension("CV.PDF", ["doc", "pdf"])
  {
    ValidateFileExtensionIff("CV.PDF", ["doc", "pdf"]);
    ExtensionOfSpec("CV.PDF");
    assert "CV.PDF"[2] == '.' && "CV.PDF"[3] != '.' && "CV.PDF"[4] != '.' && "CV.PDF"[5] != '.';
    assert LastIndexOf("CV.PDF", '.') == 2;
    assert "CV.PDF"[3..] == "PDF";
    assert Lower("PDF") == "pdf";
  }

  /** Example: a dot-file with no further dot has no extension. */
  lemma LeadingDotRejected()
    ensures !ValidateFileExtension(".pdf", ["doc", "pdf"])
  {
    ExtensionOfSpec(".pdf");
    assert ".pdf"[0] == '.' && ".pdf"[1] != '.' && ".pdf"[2] != '.' && ".pdf"[3] != '.';
    assert LastIndexOf(".pdf", '.') == 0;
  }
}
