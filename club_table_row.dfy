/** `ClubTableRow.getSubtitle` (components/ClubTableRow.js). */
module ClubTableRow {
  import opened Wrappers
  import opened JsStrings

  const ELLIPSIS: JsString := [46, 46, 46]

  /**
   * The row's subtitle: the club's subtitle when set, else the description, cut
   * to 200 code units plus "..." when it has 200 or more.
   */
  function GetSubtitle(subtitle: Option<JsString>, description: JsString): (r: JsString)
    ensures subtitle.Some? && subtitle.value != [] ==> r == subtitle.value
    ensures !(subtitle.Some? && subtitle.value != []) && |description| < 200 ==> r == description
    ensures !(subtitle.Some? && subtitle.value != []) && |description| >= 200 ==>
      |r| == 203 && r == description[..200] + ELLIPSIS
  {
    if subtitle.Some? && subtitle.value != [] then subtitle.value
    else if |description| < 200 then description
    else description[..200] + ELLIPSIS
  }

  /** Without a subtitle the result starts with a prefix of the description and is at most 203 units long. */
  lemma SubtitleFromDescription(subtitle: Option<JsString>, description: JsString)
    requires !(subtitle.Some? && subtitle.value != [])
    ensures var r := GetSubtitle(subtitle, description);
      |r| <= 203 && exists n :: 0 <= n <= |r| && n <= |description| && r[..n] == description[..n] && (n == |r| || n == 200)
  {
    var r := GetSubtitle(subtitle, description);
    if |description| < 200 {
      assert r[..|r|] == description[..|r|];
    } else {
      assert r[..200] == description[..200];
    }
  }
}
