/**
 * The logic of `ProfilePic` (frontend/components/common/ProfilePic.tsx): the
 * string hash, the colour choice it drives, and the initials shown when the
 * user has no image. The palettes come from the colour constants and are parameters.
 */
module ProfilePic {
  import opened Wrappers
  import opened JsStrings

  /** What `hashCode` evaluates to: the loop body runs at most once, so only the first code unit counts. */
  function HashValue(content: JsString): (h: int)
    ensures 0 <= h < 0x1_0000
  {
    if |content| > 0 then content[0] else 0
  }

  /** `hashCode(content)`: `h = ((h << 5) - h + content.charCodeAt(i++)) | 0` while `i < 1`. */
  method HashCode(content: JsString) returns (h: int)
    ensures h == HashValue(content)
  {
    h := 0;
    var i := 0;
    if |content| > 0 {
      while i < 1
        invariant 0 <= i <= 1
        invariant i == 0 ==> h == 0
        invariant i == 1 ==> h == content[0]
      {
        var shifted := ToInt32(ToInt32(h) * 32);
        h := ToInt32(shifted - h + content[i]);
        i := i + 1;
      }
    }
  }

  /** `hashCode('')` is 0 and a non-empty string hashes to its first code unit. */
  lemma HashOfFirstUnit(content: JsString)
    ensures content == [] ==> HashValue(content) == 0
    ensures content != [] ==> HashValue(content) == content[0]
    ensures forall rest: JsString :: content != [] ==> HashValue(content + rest) == HashValue(content)
  {
  }

  /** `hashCode(name) % PROPIC_TEXT.length`; None stands for NaN (an empty palette). */
  function Nonce(name: JsString, paletteLength: nat): (n: Option<nat>)
    ensures paletteLength == 0 <==> n.None?
    ensures n.Some? ==> n.value < paletteLength && n.value == HashValue(name) % paletteLength
  {
    if paletteLength == 0 then None else Some(HashValue(name) % paletteLength)
  }

  /** Array indexing: `undefined` (None) outside the array; a helper of `Render`. */
  function At(palette: seq<string>, index: Option<nat>): Option<string> {
    if index.Some? && index.value < |palette| then Some(palette[index.value]) else None
  }

  /** `name.replace(/[a-z]|\s/g, '')` */
  function Initials(name: JsString): (r: JsString)
    ensures |r| <= |name|
    ensures forall i :: 0 <= i < |r| ==> !('a' as int <= r[i] <= 'z' as int) && !IsJsSpace(r[i])
    ensures forall u :: u in r ==> u in name
  {
    if name == [] then []
    else
      var rest := Initials(name[1..]);
      if ('a' as int <= name[0] <= 'z' as int) || IsJsSpace(name[0]) then rest else [name[0]] + rest
  }

  /** Units that are neither lowercase letters nor white space are all kept, in order. */
  lemma {:induction false} InitialsKeepOthers(name: JsString)
    requires forall i :: 0 <= i < |name| ==> !('a' as int <= name[i] <= 'z' as int) && !IsJsSpace(name[i])
    ensures Initials(name) == name
    decreases |name|
  {
    if name != [] {
      InitialsKeepOthers(name[1..]);
    }
  }

  /** Extracting initials twice is extracting them once. */
  lemma InitialsIdempotent(name: JsString)
    ensures Initials(Initials(name)) == Initials(name)
  {
    InitialsKeepOthers(Initials(name));
  }

  /** What the component renders. */
  datatype ProfilePicView =
    | Avatar(src: string)
    | Placeholder(backgroundColor: Option<string>, textColor: Option<string>, initials: JsString)

  /** `ProfilePic({ user: { name, image } })` with the two colour palettes. */
  method Render(name: JsString, image: Option<string>, backgrounds: seq<string>, texts: seq<string>)
    returns (view: ProfilePicView)
    ensures image.Some? && image.value != "" ==> view == Avatar(image.value)
    ensures !(image.Some? && image.value != "") ==>
      view.Placeholder? && view.initials == Initials(name) &&
      var nonce := Nonce(name, |texts|);
      view.backgroundColor == At(backgrounds, nonce) && view.textColor == At(texts, nonce)
  {
    if image.Some? && image.value != "" {
      return Avatar(image.value);
    }
    var h := HashCode(name);
    var nonce := if |texts| == 0 then None else Some(h % |texts|);
    view := Placeholder(At(backgrounds, nonce), At(texts, nonce), Initials(name));
  }

  /** With palettes of equal, non-zero length both colours exist and come from the same index. */
  lemma ColoursShareIndex(name: JsString, backgrounds: seq<string>, texts: seq<string>)
    requires |backgrounds| == |texts| > 0
    ensures var nonce := Nonce(name, |texts|);
      nonce.Some? && At(backgrounds, nonce) == Some(backgrounds[nonce.value]) && At(texts, nonce) == Some(texts[nonce.value])
  {
  }
}
