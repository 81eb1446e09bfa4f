/** Which of the files a user offers is handed on: the first of a drop or of
    the file chooser, the first clipboard item whose type mentions "image" on
    a paste, and the MIME-type guard every candidate then passes. */
module Selection {
  import opened Wrappers

  /** A file offered by the platform; only its declared MIME type is read. */
  datatype File = File(name: string, mimeType: string)

  /** One item of a paste's clipboard data, with the file it yields. */
  datatype ClipboardItem = ClipboardItem(mimeType: string, file: File)

  /** The alert shown when a non-image file is offered. */
  const RejectMessage: string := "Please select an image file."

  /** `t.startsWith('image/')`. */
  predicate IsImageType(t: string): (b: bool)
    ensures b <==> OccursAt(t, "image/", 0)
  {
    "image/" <= t
  }

  /** `s.indexOf(sub) !== -1`: `sub` occurs somewhere in `s`. */
  predicate Contains(s: string, sub: string): (b: bool)
    ensures sub <= s ==> b
    ensures b ==> |sub| <= |s|
    decreases |s|
  {
    sub <= s || (|s| > 0 && Contains(s[1..], sub))
  }

  /** An occurrence of `sub` at position `k` of `s`. */
  predicate OccursAt(s: string, sub: string, k: int)
  {
    0 <= k && k + |sub| <= |s| && s[k..k + |sub|] == sub
  }

  /** `Contains` agrees with the direct definition: some position of `s`
      starts a copy of `sub`. */
  lemma {:induction false} ContainsOccurs(s: string, sub: string)
    ensures Contains(s, sub) <==> exists k :: OccursAt(s, sub, k)
  {
    assert OccursAt(s, sub, 0) <==> sub <= s;
    if |s| == 0 {
      assert forall k :: OccursAt(s, sub, k) ==> k == 0;
    } else {
      ContainsOccurs(s[1..], sub);
      if k :| OccursAt(s[1..], sub, k) {
        assert s[1..][k..k + |sub|] == s[k + 1..k + 1 + |sub|];
        assert OccursAt(s, sub, k + 1);
      }
      if k :| OccursAt(s, sub, k) && k > 0 {
        assert s[1..][k - 1..k - 1 + |sub|] == s[k..k + |sub|];
        assert OccursAt(s[1..], sub, k - 1);
      }
    }
  }

  /** Every type the guard accepts would also be picked from a paste. */
  lemma ImageTypeIsPasteCandidate(t: string)
    requires IsImageType(t)
    ensures Contains(t, "image")
  {
    assert "image" <= t;
  }

  /** The converse fails: a paste can pick an item that the guard then
      rejects, because the paste looks for "image" anywhere in the type. */
  lemma PasteCandidateMayBeRejected()
    ensures Contains("text/x-image", "image") && !IsImageType("text/x-image")
  {
    ContainsOccurs("text/x-image", "image");
    assert OccursAt("text/x-image", "image", 7);
    assert "text/x-image"[0] != "image/"[0];
  }

  /** What the drop handler and the file chooser pass on: the first file, if
      any. */
  function FirstFile(files: seq<File>): (r: Option<File>)
    ensures r.Some? <==> |files| > 0
    ensures r.Some? ==> r.value == files[0]
  {
    if |files| > 0 then Some(files[0]) else None
  }

  /** The item the paste handler passes on: the first whose type contains
      "image"; the search stops there. */
  method PasteSelection(items: seq<ClipboardItem>) returns (r: Option<File>)
    ensures r.None? <==> forall i | 0 <= i < |items| :: !Contains(items[i].mimeType, "image")
    ensures r.Some? ==> exists k | 0 <= k < |items| ::
      && Contains(items[k].mimeType, "image")
      && r.value == items[k].file
      && forall j | 0 <= j < k :: !Contains(items[j].mimeType, "image")
  {
    r := None;
    var i := 0;
    while i < |items|
      invariant 0 <= i <= |items|
      invariant forall j | 0 <= j < i :: !Contains(items[j].mimeType, "image")
    {
      if Contains(items[i].mimeType, "image") {
        r := Some(items[i].file);
        break;
      }
      i := i + 1;
    }
  }
}
