/** The reverse patch the installer stores beside the customize file.

    The `diff_match_patch` library that computes, serialises and applies it
    is foreign. This module defines its effect directly: a patch made
    from `current` to `pre` has no hunks when the two are equal (it then
    applies to any text and changes nothing), and otherwise it applies to a
    text exactly when that text is still `current`, giving `pre`. The patch
    text uses a format of this model's own: the empty string for a patch
    without hunks, else the decimal length of the source, a colon, the
    source and the target. */
module ReversePatch {
  import opened Wrappers
  import Decimal

  datatype Patch = NoHunks | Hunks(source: string, target: string)

  /** `patch_make(diff_main(current, pre))` */
  function MakePatch(current: string, pre: string): (p: Patch)
    ensures p.NoHunks? <==> current == pre
    ensures p.Hunks? ==> p.source == current && p.target == pre
  {
    if current == pre then NoHunks else Hunks(current, pre)
  }

  /** `patch_apply(patches, text)`: None when a hunk does not apply. */
  function ApplyPatch(p: Patch, text: string): (r: Option<string>)
    ensures p.NoHunks? ==> r == Some(text)
    ensures p.Hunks? ==> (r.Some? <==> text == p.source)
    ensures p.Hunks? && r.Some? ==> r.value == p.target
  {
    match p
    case NoHunks => Some(text)
    case Hunks(source, target) => if text == source then Some(target) else None
  }

  /** A patch made from `current` to `pre` turns `current` back into `pre`,
      and a text other than `current` is refused unless the two were equal. */
  lemma MakeThenApply(current: string, pre: string, text: string)
    ensures ApplyPatch(MakePatch(current, pre), current) == Some(pre)
    ensures text != current && current != pre ==> ApplyPatch(MakePatch(current, pre), text).None?
    ensures current == pre ==> ApplyPatch(MakePatch(current, pre), text) == Some(text)
  {
  }

  /** `patch_toText` */
  function EncodePatch(p: Patch): (s: string)
    ensures s == "" <==> p.NoHunks?
  {
    match p
    case NoHunks => ""
    case Hunks(source, target) => Decimal.NatToString(|source|) + ":" + source + target
  }

  /** The position of the first `c` in `s`. */
  function FirstIndexOf(s: string, c: char): (r: Option<nat>)
    ensures r.Some? ==> r.value < |s| && s[r.value] == c && forall j :: 0 <= j < r.value ==> s[j] != c
    ensures r.None? ==> forall j :: 0 <= j < |s| ==> s[j] != c
  {
    if |s| == 0 then None
    else if s[0] == c then Some(0)
    else
      match FirstIndexOf(s[1..], c)
      case Some(i) => Some(i + 1)
      case None => None
  }

  /** `patch_fromText`: None when the text is not a patch (ValueError). */
  function DecodePatch(s: string): (r: Option<Patch>)
  {
    if s == "" then Some(NoHunks)
    else
      match FirstIndexOf(s, ':')
      case None => None
      case Some(i) =>
        if i == 0 || !Decimal.AllDigits(s[..i]) then None
        else
          var n := Decimal.DigitsValue(s[..i]);
          var rest := s[i + 1..];
          if n <= |rest| then Some(Hunks(rest[..n], rest[n..])) else None
  }

  lemma {:induction false} FirstIndexAfterDigits(d: string, rest: string)
    requires Decimal.AllDigits(d)
    ensures FirstIndexOf(d + ":" + rest, ':') == Some(|d|)
    decreases |d|
  {
    if |d| > 0 {
      assert (d + ":" + rest)[1..] == d[1..] + ":" + rest;
      FirstIndexAfterDigits(d[1..], rest);
    }
  }

  /** What is written to the patch file reads back as the same patch. */
  lemma DecodeEncode(p: Patch)
    ensures DecodePatch(EncodePatch(p)) == Some(p)
  {
    if p.Hunks? {
      var d := Decimal.NatToString(|p.source|);
      var s := EncodePatch(p);
      FirstIndexAfterDigits(d, p.source + p.target);
      assert s == d + ":" + (p.source + p.target);
      assert s[..|d|] == d;
      assert s[|d| + 1..] == p.source + p.target;
      Decimal.NatToStringRoundTrip(|p.source|);
    }
  }
}
