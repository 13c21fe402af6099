/**
 * The directory walker's extension filter: a regular file is processed only
 * when its suffix, lower-cased and without the leading dot, is jpg, jpeg or png.
 */
module Walker {

  const AcceptedExtensions: seq<string> := ["jpg", "jpeg", "png"]

  function LowerAscii(c: char): char {
    if 'A' <= c <= 'Z' then (c as int - 'A' as int + 'a' as int) as char else c
  }

  function Lower(s: string): (r: string)
    ensures |r| == |s| && forall i :: 0 <= i < |s| ==> r[i] == LowerAscii(s[i])
  {
    if s == [] then [] else [LowerAscii(s[0])] + Lower(s[1..])
  }

  /** Python's s[1:]: everything after the first character, and "" for "". */
  function DropFirst(s: string): string {
    if s == [] then [] else s[1..]
  }

  /** The test `suffix.lower()[1:] in ['jpg', 'jpeg', 'png']`. */
  predicate ExtensionAccepted(suffix: string) {
    DropFirst(Lower(suffix)) in AcceptedExtensions
  }

  /**
   * Exactly the suffixes of four or five characters whose tail spells one of
   * the accepted extensions in any mix of upper and lower case are accepted.
   */
  lemma ExtensionAcceptedChars(suffix: string)
    ensures ExtensionAccepted(suffix) <==>
      (|suffix| == 4 && LowerAscii(suffix[1]) == 'j' && LowerAscii(suffix[2]) == 'p' && LowerAscii(suffix[3]) == 'g') ||
      (|suffix| == 5 && LowerAscii(suffix[1]) == 'j' && LowerAscii(suffix[2]) == 'p' && LowerAscii(suffix[3]) == 'e' && LowerAscii(suffix[4]) == 'g') ||
      (|suffix| == 4 && LowerAscii(suffix[1]) == 'p' && LowerAscii(suffix[2]) == 'n' && LowerAscii(suffix[3]) == 'g')
  {
    var t := DropFirst(Lower(suffix));
    if |suffix| >= 1 {
      assert |t| == |suffix| - 1;
      assert forall i :: 0 <= i < |t| ==> t[i] == LowerAscii(suffix[i + 1]);
      assert t in AcceptedExtensions <==> t == "jpg" || t == "jpeg" || t == "png";
      assert t == "jpg" <==> |t| == 3 && t[0] == 'j' && t[1] == 'p' && t[2] == 'g';
      assert t == "png" <==> |t| == 3 && t[0] == 'p' && t[1] == 'n' && t[2] == 'g';
      assert t == "jpeg" <==> |t| == 4 && t[0] == 'j' && t[1] == 'p' && t[2] == 'e' && t[3] == 'g';
    }
  }

  lemma ExtensionExamples()
    ensures ExtensionAccepted(".JPG") && ExtensionAccepted(".Jpeg") && ExtensionAccepted(".png")
    ensures !ExtensionAccepted(".gif") && !ExtensionAccepted("")
  {
    ExtensionAcceptedChars(".JPG");
    ExtensionAcceptedChars(".Jpeg");
    ExtensionAcceptedChars(".png");
    ExtensionAcceptedChars(".gif");
    ExtensionAcceptedChars("");
  }
}
