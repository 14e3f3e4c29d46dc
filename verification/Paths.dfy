/** Key and prefix normalisation of the object store helpers. */
module Paths {

  /** `replace(/^\/+/, "")` */
  function StripLeading(s: string): string {
    if s != [] && s[0] == '/' then StripLeading(s[1..]) else s
  }

  /** `replace(/\/+/g, "/")` */
  function Collapse(s: string): string {
    if s == [] then []
    else if s[0] == '/' && |s| > 1 && s[1] == '/' then Collapse(s[1..])
    else [s[0]] + Collapse(s[1..])
  }

  function NormalizeKey(key: string): string {
    Collapse(StripLeading(key))
  }

  predicate EndsWithSlash(s: string) {
    s != [] && s[|s| - 1] == '/'
  }

  function NormalizePrefix(prefix: string): string {
    if prefix == "" then ""
    else
      var cleaned := NormalizeKey(prefix);
      if EndsWithSlash(cleaned) then cleaned else cleaned + "/"
  }

  // ---------------------------------------------------------------- normal forms

  ghost predicate NoDoubleSlash(s: string) {
    forall i :: 0 <= i < |s| - 1 ==> s[i] != '/' || s[i + 1] != '/'
  }

  /** A normal key: no leading slash and no empty segment. */
  ghost predicate Clean(s: string) {
    (s == [] || s[0] != '/') && NoDoubleSlash(s)
  }

  ghost predicate AllSlashes(s: string) {
    forall i :: 0 <= i < |s| ==> s[i] == '/'
  }

  lemma {:induction false} StripLeadingStrips(s: string)
    ensures StripLeading(s) == [] || StripLeading(s)[0] != '/'
    ensures StripLeading(s) == [] <==> AllSlashes(s)
    ensures s == [] || s[0] != '/' ==> StripLeading(s) == s
  {
    if s != [] && s[0] == '/' {
      StripLeadingStrips(s[1..]);
      assert s == [s[0]] + s[1..];
      assert AllSlashes(s) ==> forall i :: 0 <= i < |s[1..]| ==> s[1..][i] == s[i + 1];
      assert AllSlashes(s[1..]) ==> forall i :: 0 < i < |s| ==> s[i] == s[1..][i - 1];
    }
  }

  lemma {:induction false} CollapseCollapses(s: string)
    ensures NoDoubleSlash(Collapse(s))
    ensures Collapse(s) == [] <==> s == []
    ensures s != [] ==> Collapse(s)[0] == s[0]
    ensures NoDoubleSlash(s) ==> Collapse(s) == s
  {
    if s == [] {
    } else {
      CollapseCollapses(s[1..]);
      if NoDoubleSlash(s) {
        forall i | 0 <= i < |s[1..]| - 1
          ensures s[1..][i] != '/' || s[1..][i + 1] != '/'
        {
          assert s[1..][i] == s[i + 1] && s[1..][i + 1] == s[i + 2];
        }
        assert s == [s[0]] + s[1..];
        assert |s| > 1 ==> s[0] != '/' || s[0 + 1] != '/';
      }
    }
  }

  /** Normal keys are exactly the fixed points of `normalizeKey`, and it always produces one. */
  lemma NormalizeKeyIsCanonical(key: string)
    ensures Clean(NormalizeKey(key))
    ensures Clean(key) <==> NormalizeKey(key) == key
    ensures NormalizeKey(NormalizeKey(key)) == NormalizeKey(key)
    ensures NormalizeKey(key) == "" <==> AllSlashes(key)
  {
    StripLeadingStrips(key);
    CollapseCollapses(StripLeading(key));
    var n := NormalizeKey(key);
    StripLeadingStrips(n);
    CollapseCollapses(n);
  }

  lemma AppendSlash(s: string)
    requires Clean(s) && s != "" && !EndsWithSlash(s)
    ensures Clean(s + "/")
  {
  }

  /**
   A non-empty prefix normalises to something that ends in a slash. It starts with a slash exactly when the
   prefix consists of slashes only, and is a normal key otherwise. Normalising twice changes nothing.
   */
  lemma NormalizePrefixIsCanonical(prefix: string)
    ensures NormalizePrefix(prefix) == "" <==> prefix == ""
    ensures prefix != "" ==> EndsWithSlash(NormalizePrefix(prefix))
    ensures prefix != "" ==> (NormalizePrefix(prefix)[0] == '/' <==> AllSlashes(prefix))
    ensures !AllSlashes(prefix) ==> Clean(NormalizePrefix(prefix))
    ensures NormalizePrefix(NormalizePrefix(prefix)) == NormalizePrefix(prefix)
  {
    NormalizeKeyIsCanonical(prefix);
    if prefix != "" {
      var cleaned := NormalizeKey(prefix);
      var n := NormalizePrefix(prefix);
      if AllSlashes(prefix) {
        assert cleaned == "" && n == "/";
        NormalizeKeyIsCanonical("/");
        assert AllSlashes("/");
      } else {
        if !EndsWithSlash(cleaned) { AppendSlash(cleaned); }
        NormalizeKeyIsCanonical(n);
      }
    }
  }

  // ---------------------------------------------------------------- segments

  /** The characters before the first slash. */
  function Head(s: string): (h: string)
    ensures |h| <= |s|
  {
    if s == [] || s[0] == '/' then [] else [s[0]] + Head(s[1..])
  }

  /** The non-empty pieces between the slashes. */
  function Segments(s: string): seq<string>
    decreases |s|
  {
    if s == [] then []
    else if s[0] == '/' then Segments(s[1..])
    else [Head(s)] + Segments(s[|Head(s)|..])
  }

  /** The segments with one slash between them and, if asked for, one at the end. */
  function Join(segments: seq<string>, trailing: bool): string {
    if segments == [] then ""
    else if |segments| == 1 then segments[0] + if trailing then "/" else ""
    else segments[0] + "/" + Join(segments[1..], trailing)
  }

  lemma {:induction false} SegmentsStripped(s: string)
    ensures Segments(StripLeading(s)) == Segments(s)
    ensures StripLeading(s) != [] ==> (EndsWithSlash(StripLeading(s)) <==> EndsWithSlash(s))
    ensures |StripLeading(s)| <= |s|
  {
    if s != [] && s[0] == '/' {
      SegmentsStripped(s[1..]);
    }
  }

  lemma {:induction false} CollapseHead(s: string)
    ensures Collapse(s) == Head(s) + Collapse(s[|Head(s)|..])
    ensures |Head(s)| < |s| ==> s[|Head(s)|] == '/'
    ensures s != [] && s[0] != '/' ==> Head(s) != []
    ensures Head(s) == s[..|Head(s)|]
  {
    if s == [] || s[0] == '/' {
      assert s[0..] == s;
    } else {
      CollapseHead(s[1..]);
      assert Head(s) == [s[0]] + s[1..][..|Head(s[1..])|];
      assert s[|Head(s)|..] == s[1..][|Head(s[1..])|..];
      assert Collapse(s) == [s[0]] + Collapse(s[1..]);
    }
  }

  lemma {:induction false} CollapseSlashes(s: string)
    requires s != [] && s[0] == '/'
    ensures Collapse(s) == "/" + Collapse(StripLeading(s))
  {
    if |s| > 1 && s[1] == '/' {
      CollapseSlashes(s[1..]);
    }
  }

  /** `normalizeKey` keeps the segments, in order, and whether the key ends in a slash; it is their canonical spelling. */
  lemma {:induction false} NormalizeKeyKeepsSegments(key: string)
    ensures NormalizeKey(key) == Join(Segments(key), EndsWithSlash(key))
    decreases |key|
  {
    var t := StripLeading(key);
    SegmentsStripped(key);
    StripLeadingStrips(key);
    if t != [] {
      CollapseHead(t);
      var head := Head(t);
      var rest := t[|head|..];
      if rest == [] {
        assert head == t && Collapse(t) == t + Collapse(rest);
        HeadHasNoSlash(t);
      } else {
        CollapseSlashes(rest);
        NormalizeKeyKeepsSegments(rest);
        assert rest[|rest| - 1] == t[|t| - 1];
        assert NormalizeKey(key) == head + ("/" + Join(Segments(rest), EndsWithSlash(rest)));
        assert Segments(t) == [head] + Segments(rest);
        JoinFirst(head, Segments(rest), EndsWithSlash(rest));
        NothingAfterSlashes(rest);
      }
    }
  }

  lemma JoinFirst(head: string, rest: seq<string>, trailing: bool)
    ensures Join([head] + rest, trailing) ==
              if rest == [] then head + (if trailing then "/" else "") else head + "/" + Join(rest, trailing)
  {
    assert ([head] + rest)[1..] == rest;
  }

  lemma {:induction false} HeadHasNoSlash(s: string)
    ensures forall i :: 0 <= i < |Head(s)| ==> Head(s)[i] != '/'
  {
    if s == [] || s[0] == '/' {
    } else {
      HeadHasNoSlash(s[1..]);
    }
  }

  /** Without a segment there are only slashes. */
  lemma {:induction false} NothingAfterSlashes(s: string)
    ensures Segments(s) == [] ==> AllSlashes(s)
  {
    if s != [] && s[0] == '/' {
      NothingAfterSlashes(s[1..]);
      assert Segments(s) == [] ==> forall i :: 0 < i < |s| ==> s[i] == s[1..][i - 1];
    }
  }

  /** A prefix keeps its segments too, and ends in a slash. */
  lemma NormalizePrefixKeepsSegments(prefix: string)
    ensures !AllSlashes(prefix) ==> NormalizePrefix(prefix) == Join(Segments(prefix), true)
  {
    NormalizeKeyKeepsSegments(prefix);
    NormalizeKeyIsCanonical(prefix);
    if !AllSlashes(prefix) {
      var n := NormalizeKey(prefix);
      NothingAfterSlashes(prefix);
      TrailingSlash(Segments(prefix));
      SegmentsStripped(prefix);
      StripLeadingStrips(prefix);
      CollapseKeepsLast(StripLeading(prefix));
    }
  }

  lemma {:induction false} CollapseKeepsLast(s: string)
    requires s != []
    ensures Collapse(s) != [] && Collapse(s)[|Collapse(s)| - 1] == s[|s| - 1]
  {
    if |s| > 1 {
      CollapseKeepsLast(s[1..]);
    }
  }

  lemma {:induction false} TrailingSlash(segments: seq<string>)
    requires segments != []
    ensures Join(segments, true) == Join(segments, false) + "/"
  {
    if |segments| > 1 {
      TrailingSlash(segments[1..]);
    }
  }

  /** What `renameFileOrFolder` hands to `renameFolder` survives the second normalisation there. */
  lemma RenameNormalisesOnce(key: string)
    ensures NormalizePrefix(NormalizePrefix(NormalizeKey(key))) == NormalizePrefix(NormalizeKey(key))
    ensures !AllSlashes(key) ==> NormalizePrefix(NormalizeKey(key)) == NormalizePrefix(key)
    ensures key != "" && AllSlashes(key) ==> NormalizePrefix(NormalizeKey(key)) == "" && NormalizePrefix(key) == "/"
  {
    NormalizePrefixIsCanonical(NormalizeKey(key));
    NormalizeKeyIsCanonical(key);
    if AllSlashes(key) && key != "" {
      assert NormalizeKey(key) == "";
    }
  }
}
