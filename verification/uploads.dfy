/** The upload-to-text mapping that feeds the PDF conversion: each uploaded
    file, in upload order, becomes one text; a text file whose reading fails
    is reported and skipped. */
module Uploads {
  import opened Results

  /** One uploaded file: its name, its MIME type, and what reading it and
      decoding it as UTF-8 yields (None when either raises). Only text types
      are ever read. */
  datatype Upload = Upload(name: string, contentType: string, decoded: Option<string>)

  /** `type.startswith("text")`. */
  predicate IsText(u: Upload)
  {
    |u.contentType| >= 4 && u.contentType[..4] == "text"
  }

  /** The note that stands in for a file that is not text. */
  function Placeholder(name: string): string
  {
    "Binary file: " + name + " (cannot be previewed as text)"
  }

  /** The file contributes a text: it is not text, or it is and its read succeeded. */
  predicate Readable(u: Upload)
  {
    !IsText(u) || u.decoded.Some?
  }

  function TextOf(u: Upload): string
    requires Readable(u)
  {
    if IsText(u) then u.decoded.value else Placeholder(u.name)
  }

  /** The texts collected from the uploads, in upload order. */
  function DocumentTexts(uploads: seq<Upload>): (docs: seq<string>)
    ensures |docs| <= |uploads|
    ensures |docs| == |uploads| <==> forall i :: 0 <= i < |uploads| ==> Readable(uploads[i])
  {
    if uploads == [] then []
    else
      var rest := DocumentTexts(uploads[1..]);
      assert (forall i :: 0 <= i < |uploads| ==> Readable(uploads[i]))
         <==> Readable(uploads[0]) && forall i :: 0 <= i < |uploads[1..]| ==> Readable(uploads[1..][i]);
      (if Readable(uploads[0]) then [TextOf(uploads[0])] else []) + rest
  }

  /** Some readable upload yields exactly this text. */
  predicate ComesFrom(uploads: seq<Upload>, text: string)
  {
    exists i :: 0 <= i < |uploads| && Readable(uploads[i]) && TextOf(uploads[i]) == text
  }

  /** Every collected text comes from some upload, and every readable upload
      contributes its text. */
  lemma {:induction false} DocumentTextsContents(uploads: seq<Upload>)
    ensures forall k :: 0 <= k < |DocumentTexts(uploads)| ==> ComesFrom(uploads, DocumentTexts(uploads)[k])
    ensures forall i :: 0 <= i < |uploads| && Readable(uploads[i]) ==> TextOf(uploads[i]) in DocumentTexts(uploads)
    decreases |uploads|
  {
    if uploads != [] {
      var tail := uploads[1..];
      DocumentTextsContents(tail);
      var docs, rest := DocumentTexts(uploads), DocumentTexts(tail);
      var head := if Readable(uploads[0]) then [TextOf(uploads[0])] else [];
      assert docs == head + rest;
      forall k | 0 <= k < |docs|
        ensures ComesFrom(uploads, docs[k])
      {
        if k < |head| {
          assert Readable(uploads[0]) && TextOf(uploads[0]) == docs[k];
        } else {
          assert docs[k] == rest[k - |head|];
          var i :| 0 <= i < |tail| && Readable(tail[i]) && TextOf(tail[i]) == rest[k - |head|];
          assert uploads[i + 1] == tail[i];
        }
      }
      forall i | 0 <= i < |uploads| && Readable(uploads[i])
        ensures TextOf(uploads[i]) in docs
      {
        if i == 0 {
          assert docs[0] == TextOf(uploads[0]);
        } else {
          assert uploads[i] == tail[i - 1];
          assert TextOf(tail[i - 1]) in rest;
        }
      }
    }
  }

  /** Collecting is compositional: the texts of a concatenation of uploads are
      the texts of the first part followed by those of the second, which is
      to say upload order is kept. */
  lemma {:induction false} DocumentTextsAppend(a: seq<Upload>, b: seq<Upload>)
    ensures DocumentTexts(a + b) == DocumentTexts(a) + DocumentTexts(b)
    decreases |a|
  {
    if a == [] {
      assert a + b == b;
    } else {
      assert (a + b)[0] == a[0];
      assert (a + b)[1..] == a[1..] + b;
      DocumentTextsAppend(a[1..], b);
    }
  }

  /** A single upload yields its decoded text, the placeholder, or nothing. */
  lemma DocumentTextsSingle(u: Upload)
    ensures IsText(u) && u.decoded.Some? ==> DocumentTexts([u]) == [u.decoded.value]
    ensures !IsText(u) ==> DocumentTexts([u]) == [Placeholder(u.name)]
    ensures IsText(u) && u.decoded.None? ==> DocumentTexts([u]) == []
  {
  }
}
