/**
 * How Handle-dynamic tells an image reference from a text reply, and where
 * it looks for the image file.
 */
module ImageRefs {
  import opened Strings

  /** The directory image references are resolved against. */
  const ImageDirectory: string := "data/images"

  /** The value, lower-cased, ends with one of the recognised image
      extensions; `.webp` is not one of them. */
  predicate IsImage(value: string) {
    var lower := Lower(value);
    EndsWith(lower, ".png") || EndsWith(lower, ".jpg") || EndsWith(lower, ".jpeg") || EndsWith(lower, ".gif")
  }

  /** `Path("data/images") / value`: an absolute value replaces the directory. */
  function ImagePath(value: string): (path: string)
    ensures value != [] && value[0] == '/' ==> path == value
    ensures (value == [] || value[0] != '/') ==> StartsWith(path, ImageDirectory + "/")
    ensures EndsWith(path, value)
  {
    if value != [] && value[0] == '/' then value else ImageDirectory + "/" + value
  }

  /** The test ignores the case of letters: values that differ only in case
      are classified alike. */
  lemma {:induction false} ImageTestIgnoresCase(s: string, t: string)
    requires |s| == |t|
    requires forall k :: 0 <= k < |s| ==> LowerChar(s[k]) == LowerChar(t[k])
    ensures IsImage(s) <==> IsImage(t)
  {
    assert Lower(s) == Lower(t);
  }

  /** Every image extension ends in `g` or `f`, so a value whose last letter
      is neither, in either case, is text. */
  lemma {:induction false} LastLetterRulesOut(value: string)
    requires value == [] || LowerChar(value[|value| - 1]) !in {'g', 'f'}
    ensures !IsImage(value)
  {
    var lower := Lower(value);
    if lower != [] {
      assert lower[|lower| - 1] == LowerChar(value[|value| - 1]);
      forall e | e in {".png", ".jpg", ".jpeg", ".gif"}
        ensures !EndsWith(lower, e)
      {
        if |e| <= |lower| {
          assert lower[|lower| - |e|..][|e| - 1] == lower[|lower| - 1];
        }
      }
    }
  }

  /** An image name with a further extension is text, so `cat.png.txt` is text. */
  lemma {:induction false} TextExtensionIsNotImage(s: string)
    ensures !IsImage(s + ".txt")
  {
    LastLetterRulesOut(s + ".txt");
  }

  /** Upper-case extensions are recognised: `CAT.PNG` is an image. */
  lemma {:induction false} UpperCaseExtension(s: string)
    ensures IsImage(s + ".PNG")
  {
    var v := s + ".PNG";
    var lower := Lower(v);
    assert v[|s|..] == ".PNG";
    assert lower[|s|..] == ".png" by {
      forall k | 0 <= k < 4
        ensures lower[|s| + k] == ".png"[k]
      {
        assert v[|s| + k] == ".PNG"[k];
      }
    }
  }

  /** `.webp` is not an image extension, so `cat.webp` is text. */
  lemma {:induction false} WebpIsText(s: string)
    ensures !IsImage(s + ".webp")
  {
    var v := s + ".webp";
    assert v[|v| - 1] == 'p';
    LastLetterRulesOut(v);
  }
}
