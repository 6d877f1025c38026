/**
 * The markdown post-processing of the PDF pipeline
 * (features/pdf_extraction/docling_pdf_extractor.py). The converter's output is
 * abstracted to what the loop reads: the markdown with one `<!-- image -->`
 * placeholder per picture, the temporary file's stem and the document's items
 * in iteration order. The loop numbers the pictures 1, 2, ..., uploads each
 * one under a numbered key and replaces the first remaining placeholder by a
 * link to it; the markdown is then uploaded next to the images.
 */
module Docling {
  import opened Wrappers
  import opened Text

  const Placeholder := "<!-- image -->"

  /** An item of `iterate_items()`: a `PictureItem` or anything else. */
  datatype Item = Picture | Other

  /** What is stored under a key: the image of the item at an index, or markdown text. */
  datatype Object = PictureImage(item: nat) | Markdown(text: string) | PdfFile

  /** The S3 manager as the pipeline uses it: a bucket, a base path and the uploads made. */
  class S3Files {
    const bucketName: string
    const basePath: string
    var uploads: seq<(string, Object)>

    constructor(bucketName: string, basePath: string)
      ensures this.bucketName == bucketName && this.basePath == basePath && uploads == []
    {
      this.bucketName := bucketName;
      this.basePath := basePath;
      uploads := [];
    }

    method UploadFile(key: string, body: Object)
      modifies this
      ensures uploads == old(uploads) + [(key, body)]
    {
      uploads := uploads + [(key, body)];
    }
  }

  // ------------------------------------------------------------ keys and links

  function ImageKey(base: string, stem: string, k: nat): string
  {
    base + "/images/" + stem + "_image_" + Decimal(k) + ".png"
  }

  function Link(bucket: string, key: string): string
  {
    "https://" + bucket + ".s3.amazonaws.com/" + key
  }

  function Tag(link: string): string
  {
    "![Image](" + link + ")"
  }

  function MarkdownKey(base: string): string
  {
    base + "/extracted_data.md"
  }

  /** Different picture numbers give different image keys, so no upload overwrites another. */
  lemma ImageKeyInjective(base: string, stem: string, j: nat, k: nat)
    requires ImageKey(base, stem, j) == ImageKey(base, stem, k)
    ensures j == k
  {
    var pre := base + "/images/" + stem + "_image_";
    var a, b := Decimal(j) + ".png", Decimal(k) + ".png";
    assert ImageKey(base, stem, j) == pre + a && ImageKey(base, stem, k) == pre + b;
    assert a == (pre + a)[|pre|..] == (pre + b)[|pre|..] == b;
    assert Decimal(j) == a[..|a| - 4] == b[..|b| - 4] == Decimal(k);
    DecimalInjective(j, k);
  }

  // ------------------------------------------------------------ the loop

  function PictureCount(items: seq<Item>): (n: nat)
    ensures n <= |items|
  {
    if items == [] then 0
    else PictureCount(items[..|items| - 1]) + (if items[|items| - 1] == Picture then 1 else 0)
  }

  /** The uploads the loop makes: one per picture item, in order. */
  function ImageUploads(base: string, stem: string, items: seq<Item>): (ups: seq<(string, Object)>)
    ensures |ups| == PictureCount(items)
  {
    if items == [] then []
    else
      var i := |items| - 1;
      ImageUploads(base, stem, items[..i]) +
        (if items[i] == Picture then [(ImageKey(base, stem, PictureCount(items)), PictureImage(i))] else [])
  }

  /** Upload `j` is stored under the key numbered `j + 1` and carries the image of the
      `j`-th picture item (counting from 0). */
  predicate NumberedUpload(base: string, stem: string, items: seq<Item>, up: (string, Object), j: nat)
  {
    && up.0 == ImageKey(base, stem, j + 1)
    && up.1.PictureImage?
    && up.1.item < |items|
    && items[up.1.item] == Picture
    && PictureCount(items[..up.1.item]) == j
  }

  /** Pictures are numbered 1, 2, ... in iteration order, each is uploaded once under its
      number, and other items do not advance the count. */
  lemma {:induction false} ImageUploadsNumbered(base: string, stem: string, items: seq<Item>)
    ensures forall j :: 0 <= j < |ImageUploads(base, stem, items)| ==>
      NumberedUpload(base, stem, items, ImageUploads(base, stem, items)[j], j)
  {
    if items != [] {
      var i := |items| - 1;
      var front := items[..i];
      ImageUploadsNumbered(base, stem, front);
      var ups := ImageUploads(base, stem, front);
      forall j | 0 <= j < |ups|
        ensures NumberedUpload(base, stem, items, ups[j], j)
      {
        assert NumberedUpload(base, stem, front, ups[j], j);
        assert items[..ups[j].1.item] == front[..ups[j].1.item];
      }
    }
  }

  /** The replacement text of picture `k`. */
  function TagFor(bucket: string, base: string, stem: string, k: nat): string
  {
    Tag(Link(bucket, ImageKey(base, stem, k)))
  }

  /** The replacement texts of pictures 1 to `n`, in order. */
  function Tags(bucket: string, base: string, stem: string, n: nat): (ts: seq<string>)
    ensures |ts| == n
    ensures forall k :: 0 <= k < n ==> ts[k] == TagFor(bucket, base, stem, k + 1)
  {
    seq(n, k requires 0 <= k < n => TagFor(bucket, base, stem, k + 1))
  }

  /** `str.replace(Placeholder, tag, 1)` once per tag, in order. */
  function Rewrite(s: string, tags: seq<string>): string
  {
    if tags == [] then s
    else ReplaceFirst(Rewrite(s, tags[..|tags| - 1]), Placeholder, tags[|tags| - 1])
  }

  /** One more item: the count and the uploads grow only for a picture. */
  lemma ItemStep(base: string, stem: string, items: seq<Item>, i: nat)
    requires i < |items|
    ensures PictureCount(items[..i + 1]) == PictureCount(items[..i]) + (if items[i] == Picture then 1 else 0)
    ensures ImageUploads(base, stem, items[..i + 1]) == ImageUploads(base, stem, items[..i]) +
      (if items[i] == Picture then [(ImageKey(base, stem, PictureCount(items[..i]) + 1), PictureImage(i))] else [])
  {
    assert items[..i + 1][..i] == items[..i];
  }

  /** One more picture: one more replacement, with that picture's link. */
  lemma RewriteStep(markdown: string, bucket: string, base: string, stem: string, n: nat)
    ensures Rewrite(markdown, Tags(bucket, base, stem, n + 1)) ==
      ReplaceFirst(Rewrite(markdown, Tags(bucket, base, stem, n)), Placeholder, TagFor(bucket, base, stem, n + 1))
  {
    var ts := Tags(bucket, base, stem, n + 1);
    assert ts[..n] == Tags(bucket, base, stem, n);
  }

  /** `document_convert`: the markdown after the loop, and the image uploads it makes. */
  method DocumentConvert(markdown: string, stem: string, items: seq<Item>, s3: S3Files) returns (content: string)
    modifies s3
    ensures content == Rewrite(markdown, Tags(s3.bucketName, s3.basePath, stem, PictureCount(items)))
    ensures s3.uploads == old(s3.uploads) + ImageUploads(s3.basePath, stem, items)
  {
    content := markdown;
    var counter := 0;
    for i := 0 to |items|
      invariant counter == PictureCount(items[..i])
      invariant content == Rewrite(markdown, Tags(s3.bucketName, s3.basePath, stem, counter))
      invariant s3.uploads == old(s3.uploads) + ImageUploads(s3.basePath, stem, items[..i])
    {
      ItemStep(s3.basePath, stem, items, i);
      if items[i] == Picture {
        RewriteStep(markdown, s3.bucketName, s3.basePath, stem, counter);
        counter := counter + 1;
        var key := ImageKey(s3.basePath, stem, counter);
        s3.UploadFile(key, PictureImage(i));
        SnocAssoc(old(s3.uploads), ImageUploads(s3.basePath, stem, items[..i]), (key, PictureImage(i)));
        var link := Link(s3.bucketName, key);
        content := ReplaceFirst(content, Placeholder, Tag(link));
      }
    }
    assert items[..|items|] == items;
  }

  lemma SnocAssoc<T>(a: seq<T>, b: seq<T>, x: T)
    ensures a + b + [x] == a + (b + [x])
  {
  }

  /** `pdf_docling_converter` after conversion: rewrite, then store the markdown under
      `<base>/extracted_data.md` and return that key with the text. */
  method PdfDoclingConverter(markdown: string, stem: string, items: seq<Item>, s3: S3Files)
    returns (key: string, content: string)
    modifies s3
    ensures key == MarkdownKey(s3.basePath)
    ensures content == Rewrite(markdown, Tags(s3.bucketName, s3.basePath, stem, PictureCount(items)))
    ensures s3.uploads == old(s3.uploads) + ImageUploads(s3.basePath, stem, items) + [(key, Markdown(content))]
  {
    key := s3.basePath + "/extracted_data.md";
    content := DocumentConvert(markdown, stem, items, s3);
    s3.UploadFile(key, Markdown(content));
  }

  // ------------------------------------------------------------ which placeholders are replaced

  /** `parts[0] + fills[0] + parts[1] + ... + fills[n - 1] + parts[n]`. */
  function Weave(parts: seq<string>, fills: seq<string>): string
    requires |parts| == |fills| + 1
    decreases fills
  {
    if fills == [] then parts[0] else parts[0] + fills[0] + Weave(parts[1..], fills[1..])
  }

  /** `n` placeholders. */
  function Repeat(n: nat): (r: seq<string>)
    ensures |r| == n && forall i :: 0 <= i < n ==> r[i] == Placeholder
  {
    seq(n, _ => Placeholder)
  }

  /** No placeholder occurs in `s`. */
  predicate Free(s: string)
  {
    forall j: nat :: j < |s| ==> !OccursAt(s, Placeholder, j)
  }

  /** No placeholder starts inside `a`, even with a placeholder right after it. */
  predicate Safe(a: string)
  {
    forall j: nat :: j < |a| ==> !OccursAt(a + Placeholder, Placeholder, j)
  }

  /** The shape of a replacement `![Image](link)` whose link has no space. */
  predicate IsTag(tag: string)
  {
    && 2 <= |tag| && tag[0] == '!' && tag[1] == '[' && tag[|tag| - 1] == ')'
    && ' ' !in tag
  }

  /** No part contains a placeholder. */
  predicate AllFree(parts: seq<string>)
  {
    forall i :: 0 <= i < |parts| ==> Free(parts[i])
  }

  /** Every replacement has the shape of a tag. */
  predicate AllTags(tags: seq<string>)
  {
    forall i :: 0 <= i < |tags| ==> IsTag(tags[i])
  }

  /** The characters of the placeholder the argument below depends on. */
  lemma PlaceholderChars()
    ensures |Placeholder| == 14
    ensures Placeholder[0] == '<' && Placeholder[2] == '-' && Placeholder[4] == ' '
    ensures forall t :: 1 <= t < 14 ==> Placeholder[t] != '<'
    ensures forall t :: 0 <= t < 14 ==> Placeholder[t] != ')'
    ensures forall t :: 0 <= t < 14 && Placeholder[t] == '!' ==> t == 1
  {
  }

  /** The characters of an occurrence. */
  lemma OccurrenceChar(s: string, j: nat, t: nat)
    requires OccursAt(s, Placeholder, j) && t < |Placeholder|
    ensures j + t < |s| && s[j + t] == Placeholder[t]
  {
    assert s[j..j + |Placeholder|][t] == s[j + t];
  }

  /** An occurrence that ends inside a prefix is an occurrence in that prefix. */
  lemma OccursInPrefix(a: string, b: string, j: nat)
    requires j + |Placeholder| <= |a|
    ensures OccursAt(a + b, Placeholder, j) <==> OccursAt(a, Placeholder, j)
  {
    assert (a + b)[j..j + |Placeholder|] == a[j..j + |Placeholder|];
  }

  /** An occurrence past a prefix is an occurrence in the rest. */
  lemma OccursInSuffix(a: string, b: string, j: nat)
    requires |a| <= j
    ensures OccursAt(a + b, Placeholder, j) <==> OccursAt(b, Placeholder, j - |a|)
  {
    if j + |Placeholder| <= |a + b| {
      assert (a + b)[j..j + |Placeholder|] == b[j - |a|..j - |a| + |Placeholder|];
    }
  }

  /** Text without a placeholder stays without one in front of the next placeholder:
      an occurrence reaching into it would need a second `<`. */
  lemma {:induction false} FreeSafe(part: string)
    requires Free(part)
    ensures Safe(part)
  {
    PlaceholderChars();
    forall j: nat | j < |part|
      ensures !OccursAt(part + Placeholder, Placeholder, j)
    {
      if OccursAt(part + Placeholder, Placeholder, j) {
        if j + 14 <= |part| {
          OccursInPrefix(part, Placeholder, j);
        } else {
          OccurrenceChar(part + Placeholder, j, |part| - j);
        }
      }
    }
  }

  lemma {:induction false} SafeFree(a: string)
    requires Safe(a)
    ensures Free(a)
  {
    forall j: nat
      ensures !OccursAt(a, Placeholder, j)
    {
      if OccursAt(a, Placeholder, j) {
        OccursInPrefix(a, Placeholder, j);
      }
    }
  }

  /** An occurrence cannot start in `a` and reach into a tag: it would need `-` where the tag has `[`. */
  lemma {:induction false} SafeBeforeTag(a: string, tag: string, rest: string, j: nat)
    requires Safe(a) && IsTag(tag) && j < |a|
    ensures !OccursAt(a + tag + rest, Placeholder, j)
  {
    PlaceholderChars();
    var s := a + tag + rest;
    if OccursAt(s, Placeholder, j) {
      if j + 14 <= |a| {
        OccursInPrefix(a, tag + rest, j);
        assert s == a + (tag + rest);
        OccursInPrefix(a, Placeholder, j);
      } else {
        OccurrenceChar(s, j, |a| - j);
        OccurrenceChar(s, j, |a| - j + 1);
      }
    }
  }

  /** An occurrence cannot start in a tag: it would need a space, or a `)` inside the placeholder. */
  lemma {:induction false} NoneInTag(a: string, tag: string, rest: string, j: nat)
    requires IsTag(tag) && |a| <= j < |a| + |tag|
    ensures !OccursAt(a + tag + rest, Placeholder, j)
  {
    PlaceholderChars();
    var s := a + tag + rest;
    if OccursAt(s, Placeholder, j) {
      var q := j - |a|;
      if q + 4 < |tag| {
        OccurrenceChar(s, j, 4);
      } else {
        OccurrenceChar(s, j, |tag| - 1 - q);
      }
    }
  }

  /** Safety survives a tag followed by placeholder-free text. */
  lemma {:induction false} SafeExtend(a: string, tag: string, part: string)
    requires Safe(a) && IsTag(tag) && Free(part)
    ensures Safe(a + tag + part)
  {
    var b := a + tag + part;
    FreeSafe(part);
    forall j: nat | j < |b|
      ensures !OccursAt(b + Placeholder, Placeholder, j)
    {
      assert b + Placeholder == a + tag + (part + Placeholder);
      if j < |a| {
        SafeBeforeTag(a, tag, part + Placeholder, j);
      } else if j < |a| + |tag| {
        NoneInTag(a, tag, part + Placeholder, j);
      } else {
        assert b + Placeholder == (a + tag) + (part + Placeholder);
        OccursInSuffix(a + tag, part + Placeholder, j);
      }
    }
  }

  /** After safe text, the first placeholder is the one that follows it. */
  lemma FindAfterSafe(a: string, b: string)
    requires Safe(a)
    ensures Find(a + Placeholder + b, Placeholder) == Some(|a|)
  {
    var s := a + Placeholder + b;
    assert s[|a|..|a| + |Placeholder|] == Placeholder;
    assert OccursAt(s, Placeholder, |a|);
    forall j: nat | j < |a|
      ensures !OccursAt(s, Placeholder, j)
    {
      assert s == (a + Placeholder) + b;
      OccursInPrefix(a + Placeholder, b, j);
    }
  }

  /** Splitting a weave at one of its fills. */
  lemma {:induction false} WeaveSplit(parts: seq<string>, f1: seq<string>, x: string, f2: seq<string>)
    requires |parts| == |f1| + |f2| + 2
    ensures Weave(parts, f1 + [x] + f2) ==
      Weave(parts[..|f1| + 1], f1) + x + Weave(parts[|f1| + 1..], f2)
    decreases f1
  {
    var fills := f1 + [x] + f2;
    if f1 == [] {
      assert fills == [x] + f2 && fills[1..] == f2;
      assert parts[..1] == [parts[0]];
    } else {
      MiddleTail(f1, x, f2);
      WeaveSplit(parts[1..], f1[1..], x, f2);
      SlicesPastHead(parts, |f1|);
      var w1, w2 := Weave(parts[1..][..|f1|], f1[1..]), Weave(parts[|f1| + 1..], f2);
      Regroup(parts[0], f1[0], w1, x, w2);
    }
  }

  lemma MiddleTail<T>(f1: seq<T>, x: T, f2: seq<T>)
    requires f1 != []
    ensures (f1 + [x] + f2)[0] == f1[0] && (f1 + [x] + f2)[1..] == f1[1..] + [x] + f2
  {
  }

  lemma SlicesPastHead<T>(s: seq<T>, k: nat)
    requires 1 <= k && k + 1 <= |s|
    ensures s[..k + 1][0] == s[0]
    ensures s[1..][..k] == s[..k + 1][1..] && s[1..][k..] == s[k + 1..]
  {
  }

  lemma Regroup(a: string, b: string, c: string, x: string, d: string)
    ensures a + b + (c + x + d) == a + b + c + x + d
  {
  }

  /** The text up to the `m`-th placeholder, with the first `m` placeholders replaced, is safe. */
  lemma {:induction false} SafePrefix(parts: seq<string>, tags: seq<string>, m: nat)
    requires m < |parts| && m <= |tags|
    requires forall i :: 0 <= i < |parts| ==> Free(parts[i])
    requires forall i :: 0 <= i < |tags| ==> IsTag(tags[i])
    ensures Safe(Weave(parts[..m + 1], tags[..m]))
  {
    if m == 0 {
      FreeSafe(parts[0]);
    } else {
      SafePrefix(parts, tags, m - 1);
      var ps := parts[..m + 1];
      assert tags[..m] == tags[..m - 1] + [tags[m - 1]] + [];
      WeaveSplit(ps, tags[..m - 1], tags[m - 1], []);
      assert ps[..m] == parts[..m] && ps[m..] == [parts[m]];
      SafeExtend(Weave(parts[..m], tags[..m - 1]), tags[m - 1], parts[m]);
    }
  }

  function Min(a: nat, b: nat): nat { if a < b then a else b }

  /** Once every placeholder is replaced, a further replacement changes nothing. */
  lemma FillNone(parts: seq<string>, tags: seq<string>, tag: string)
    requires |parts| == |tags| + 1
    requires AllFree(parts)
    requires AllTags(tags)
    ensures ReplaceFirst(Weave(parts, tags), Placeholder, tag) == Weave(parts, tags)
  {
    SafePrefix(parts, tags, |tags|);
    assert parts[..|tags| + 1] == parts && tags[..|tags|] == tags;
    SafeFree(Weave(parts, tags));
  }

  /** With `k` placeholders replaced and some left, the next replacement fills the next one. */
  lemma FillNext(parts: seq<string>, tags: seq<string>, tag: string, rest: seq<string>)
    requires |parts| == |tags| + |rest| + 2
    requires AllFree(parts)
    requires AllTags(tags)
    ensures ReplaceFirst(Weave(parts, tags + [Placeholder] + rest), Placeholder, tag) ==
      Weave(parts, tags + [tag] + rest)
  {
    WeaveSplit(parts, tags, Placeholder, rest);
    var a := Weave(parts[..|tags| + 1], tags);
    var b := Weave(parts[|tags| + 1..], rest);
    SafePrefix(parts, tags, |tags|);
    assert tags[..|tags|] == tags;
    FindAfterSafe(a, b);
    var s := a + Placeholder + b;
    assert s[..|a|] == a && s[|a| + |Placeholder|..] == b;
    WeaveSplit(parts, tags, tag, rest);
  }

  /** Markdown whose placeholders split it into placeholder-free parts: the `k`-th
      replacement fills the `k`-th placeholder from the left, placeholders beyond the
      pictures stay, pictures beyond the placeholders change nothing, and the text
      between placeholders is left as it is. */
  lemma {:induction false} RewriteFills(parts: seq<string>, tags: seq<string>)
    requires 1 <= |parts|
    requires AllFree(parts)
    requires AllTags(tags)
    ensures Filled(parts, tags)
    decreases |tags|
  {
    if tags == [] {
      assert tags[..0] + Repeat(|parts| - 1) == Repeat(|parts| - 1);
    } else {
      AllTagsPrefix(tags, |tags| - 1);
      RewriteFills(parts, tags[..|tags| - 1]);
      if |tags| - 1 >= |parts| - 1 {
        FilledSurplus(parts, tags);
      } else {
        FilledNext(parts, tags);
      }
    }
  }

  /** Rewriting the woven text with `tags` fills the first `min(|tags|, h)` of its `h`
      placeholders with the tags in order and leaves the others. */
  predicate Filled(parts: seq<string>, tags: seq<string>)
    requires 1 <= |parts|
  {
    var h := |parts| - 1;
    var m := Min(|tags|, h);
    Rewrite(Weave(parts, Repeat(h)), tags) == Weave(parts, tags[..m] + Repeat(h - m))
  }

  /** A tag beyond the last placeholder changes nothing. */
  lemma FilledSurplus(parts: seq<string>, tags: seq<string>)
    requires 1 <= |parts| && AllFree(parts) && AllTags(tags)
    requires |parts| - 1 < |tags|
    requires Filled(parts, tags[..|tags| - 1])
    ensures Filled(parts, tags)
  {
    var h := |parts| - 1;
    InitPrefix(tags, h);
    AllTagsPrefix(tags, h);
    FillNone(parts, tags[..h], tags[|tags| - 1]);
  }

  /** A tag with a placeholder left fills the leftmost one. */
  lemma FilledNext(parts: seq<string>, tags: seq<string>)
    requires 1 <= |parts| && AllFree(parts) && AllTags(tags)
    requires 0 < |tags| <= |parts| - 1
    requires Filled(parts, tags[..|tags| - 1])
    ensures Filled(parts, tags)
  {
    var h := |parts| - 1;
    var ts := tags[..|tags| - 1];
    var rest := Repeat(h - |ts| - 1);
    RepeatCons(ts, h - |ts|);
    AllTagsPrefix(tags, |ts|);
    FillNext(parts, ts, tags[|tags| - 1], rest);
    InitLast(tags);
  }

  lemma RepeatCons(ts: seq<string>, n: nat)
    requires 0 < n
    ensures ts[..|ts|] + Repeat(n) == ts + [Placeholder] + Repeat(n - 1)
  {
    assert Repeat(n) == [Placeholder] + Repeat(n - 1);
  }

  lemma InitPrefix(tags: seq<string>, h: nat)
    requires h < |tags|
    ensures tags[..|tags| - 1][..h] + Repeat(0) == tags[..h]
    ensures tags[..h] + Repeat(0) == tags[..h]
  {
  }

  lemma AllTagsPrefix(tags: seq<string>, k: nat)
    requires AllTags(tags) && k <= |tags|
    ensures AllTags(tags[..k])
  {
  }

  lemma InitLast<T>(xs: seq<T>)
    requires xs != []
    ensures xs[..|xs|] == xs[..|xs| - 1] + [xs[|xs| - 1]]
  {
  }

  /** A link built from space-free names has no space, so its replacement text has the
      shape `IsTag` asks for. */
  lemma TagForIsTag(bucket: string, base: string, stem: string, k: nat)
    requires ' ' !in bucket && ' ' !in base && ' ' !in stem
    ensures IsTag(TagFor(bucket, base, stem, k))
  {
    assert ' ' !in Decimal(k);
  }

  lemma TagsAreTags(bucket: string, base: string, stem: string, n: nat)
    requires ' ' !in bucket && ' ' !in base && ' ' !in stem
    ensures AllTags(Tags(bucket, base, stem, n))
  {
    forall k | 0 <= k < n
      ensures IsTag(Tags(bucket, base, stem, n)[k])
    {
      TagForIsTag(bucket, base, stem, k + 1);
    }
  }

  /** What `document_convert` does to markdown with `h` placeholders and `n` pictures
      when the bucket, the base path and the stem contain no space: the first
      `min(n, h)` placeholders, from the left, become the links to pictures 1 to
      `min(n, h)`; the others remain; the text around them is unchanged. */
  lemma ConvertFills(parts: seq<string>, bucket: string, base: string, stem: string, n: nat)
    requires 1 <= |parts|
    requires AllFree(parts)
    requires ' ' !in bucket && ' ' !in base && ' ' !in stem
    ensures var h := |parts| - 1;
      var tags := Tags(bucket, base, stem, n);
      var m := Min(|tags|, h);
      Rewrite(Weave(parts, Repeat(h)), tags) == Weave(parts, tags[..m] + Repeat(h - m))
  {
    TagsAreTags(bucket, base, stem, n);
    RewriteFills(parts, Tags(bucket, base, stem, n));
  }
}
