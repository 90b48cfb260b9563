/**
 * `get_code_snippets` of rag_context_finder.py: a file's text cut into
 * consecutive, non-overlapping windows of SNIPPET_SIZE characters, the last
 * one possibly shorter. Python strings are sequences of code points, so the
 * text is a `seq<char>`. Reading the file is modelled by a map from paths to
 * contents; a path missing from the map is a file that is not found.
 */
module Chunker {

  /** SNIPPET_SIZE. */
  const SnippetSize: nat := 500

  /** The files that can be read: path to content. */
  type FileSystem = map<string, string>

  function Min(a: int, b: int): int {
    if a <= b then a else b
  }

  /** Python's `s[lo:hi]` for non-negative bounds: both ends clamped to `len(s)`. */
  function Slice(s: string, lo: nat, hi: nat): string {
    var a := Min(lo, |s|);
    var b := Min(hi, |s|);
    if b <= a then [] else s[a..b]
  }

  /** `len(range(0, len, w))`: the number of window starts. */
  function WindowCount(len: nat, w: nat): nat
    requires w > 0
  {
    (len + w - 1) / w
  }

  /**
   * The windows of `content`, in order: the first w characters, then the
   * windows of the rest; text of at most w characters is one window, and
   * empty text has none.
   */
  function Snippets(content: string, w: nat): seq<string>
    requires w > 0
    decreases |content|
  {
    if |content| == 0 then []
    else if |content| <= w then [content]
    else [content[..w]] + Snippets(content[w..], w)
  }

  /**
   * The snippets of one file: none when the file is not found (the
   * FileNotFoundError branch) and none for an empty file; at least one for a
   * file with content.
   */
  function FileSnippets(fs: FileSystem, path: string): (r: seq<string>)
    ensures path !in fs ==> r == []
    ensures path in fs ==> (r == [] <==> fs[path] == [])
  {
    if path in fs then Snippets(fs[path], SnippetSize) else []
  }

  /** Concatenation of a sequence of strings, in order. */
  function Flatten(parts: seq<string>): string {
    if parts == [] then [] else Flatten(parts[..|parts| - 1]) + parts[|parts| - 1]
  }

  lemma {:induction false} FlattenCons(first: string, rest: seq<string>)
    ensures Flatten([first] + rest) == first + Flatten(rest)
    decreases |rest|
  {
    if rest == [] {
      assert [first] + rest == [first];
      assert [first][..0] == [];
    } else {
      var init := rest[..|rest| - 1];
      FlattenCons(first, init);
      assert ([first] + rest)[..|rest|] == [first] + init;
    }
  }

  lemma MulMonotone(a: nat, b: nat, w: nat)
    requires a <= b
    ensures a * w <= b * w
  {
    assert b * w == a * w + (b - a) * w;
  }

  lemma MulGap(a: nat, b: nat, w: nat)
    requires a < b
    ensures a * w + w <= b * w
  {
    MulMonotone(a + 1, b, w);
    assert (a + 1) * w == a * w + w;
  }

  /** Quotient and remainder are unique. */
  lemma DivUnique(n: nat, w: nat, q: nat, r: nat)
    requires w > 0 && n == q * w + r && r < w
    ensures n / w == q
  {
    var q', r' := n / w, n % w;
    assert n == q' * w + r' && 0 <= r' < w;
    if q' > q {
      MulGap(q, q', w);
    } else if q' < q {
      MulGap(q', q, w);
    }
  }

  /** One more window start: ceil((len + w) / w) is ceil(len / w) + 1. */
  lemma WindowCountStep(len: nat, w: nat)
    requires w > 0
    ensures WindowCount(len + w, w) == WindowCount(len, w) + 1
  {
    var x := len + w - 1;
    var q, r := x / w, x % w;
    assert x == q * w + r && 0 <= r < w;
    assert (q + 1) * w == q * w + w;
    DivUnique(x + w, w, q + 1, r);
  }

  /** Dropping the first w characters shifts every slice bound by w. */
  lemma SliceShift(content: string, w: nat, lo: nat, hi: nat)
    requires w <= |content|
    ensures Slice(content[w..], lo, hi) == Slice(content, lo + w, hi + w)
  {
    var rest := content[w..];
    var a, b := Min(lo, |rest|), Min(hi, |rest|);
    if a < b {
      assert rest[a..b] == content[a + w..b + w];
    }
  }

  /** Concatenating the snippets in order gives back the text exactly. */
  lemma {:induction false} SnippetsReconstruct(content: string, w: nat)
    requires w > 0
    ensures Flatten(Snippets(content, w)) == content
    decreases |content|
  {
    if |content| == 0 {
    } else if |content| <= w {
      assert [content][..0] == [];
    } else {
      SnippetsReconstruct(content[w..], w);
      FlattenCons(content[..w], Snippets(content[w..], w));
      assert content[..w] + content[w..] == content;
    }
  }

  /**
   * Sizes and number of the snippets: every one but the last holds exactly w
   * characters, the last holds 1 to w, and there are ceil(len / w) of them,
   * none for empty text.
   */
  lemma {:induction false} SnippetSizes(content: string, w: nat)
    requires w > 0
    ensures var r := Snippets(content, w);
      && |r| == WindowCount(|content|, w)
      && (|r| == 0 <==> |content| == 0)
      && (forall i :: 0 <= i < |r| - 1 ==> |r[i]| == w)
      && (|r| > 0 ==> 1 <= |r[|r| - 1]| <= w)
    decreases |content|
  {
    if |content| == 0 {
    } else if |content| <= w {
      assert WindowCount(|content|, w) == 1 by {
        DivUnique(|content| + w - 1, w, 1, |content| - 1);
      }
    } else {
      var rest := content[w..];
      SnippetSizes(rest, w);
      assert |content| == |rest| + w;
      WindowCountStep(|rest|, w);
    }
  }

  /**
   * At SNIPPET_SIZE: a file that is not found has no snippets; a file that
   * is found has ceil(len / 500) snippets, each of 1 to 500 characters, that
   * concatenate back to its content.
   */
  lemma FileSnippetSizes(fs: FileSystem, path: string)
    ensures path !in fs ==> FileSnippets(fs, path) == []
    ensures path in fs ==>
      && |FileSnippets(fs, path)| == WindowCount(|fs[path]|, SnippetSize)
      && Flatten(FileSnippets(fs, path)) == fs[path]
    ensures forall s :: s in FileSnippets(fs, path) ==> 1 <= |s| <= SnippetSize
  {
    if path in fs {
      var r := Snippets(fs[path], SnippetSize);
      SnippetSizes(fs[path], SnippetSize);
      SnippetsReconstruct(fs[path], SnippetSize);
      forall s | s in r
        ensures 1 <= |s| <= SnippetSize
      {
        var i :| 0 <= i < |r| && r[i] == s;
      }
    }
  }

  /** The i-th element of `range(0, len, w)`, counted up by w at a time. */
  function WindowStart(i: nat, w: nat): nat {
    if i == 0 then 0 else WindowStart(i - 1, w) + w
  }

  lemma {:induction false} WindowStartIsProduct(i: nat, w: nat)
    ensures WindowStart(i, w) == i * w
  {
    if i > 0 {
      WindowStartIsProduct(i - 1, w);
      assert (i - 1) * w + w == i * w;
    }
  }

  /** The first snippet is the slice of the first w characters. */
  lemma FirstSnippet(content: string, w: nat)
    requires w > 0 && |content| > 0
    ensures Snippets(content, w)[0] == Slice(content, 0, w)
  {
    if |content| <= w {
      assert content[0..|content|] == content;
    }
  }

  /** Past the first window, the snippets are those of the rest of the text. */
  lemma LaterSnippet(content: string, w: nat, i: nat)
    requires w > 0 && 0 < i < |Snippets(content, w)|
    ensures |content| > w && i - 1 < |Snippets(content[w..], w)|
    ensures Snippets(content, w)[i] == Snippets(content[w..], w)[i - 1]
  {
    assert Snippets(content, w) == [content[..w]] + Snippets(content[w..], w);
  }

  lemma {:induction false} SnippetAtStart(content: string, w: nat, i: nat)
    requires w > 0 && i < |Snippets(content, w)|
    ensures WindowStart(i, w) < |content|
    ensures Snippets(content, w)[i] == Slice(content, WindowStart(i, w), WindowStart(i, w) + w)
    decreases i
  {
    if i == 0 {
      FirstSnippet(content, w);
    } else {
      LaterSnippet(content, w, i);
      var rest := content[w..];
      var start := WindowStart(i - 1, w);
      SnippetAtStart(rest, w, i - 1);
      SliceShift(content, w, start, start + w);
    }
  }

  /**
   * The i-th snippet is the Python slice `content[i * w : i * w + w]`: the
   * windows start at 0, w, 2w, ... as `range(0, len(content), w)` does.
   */
  lemma SnippetAt(content: string, w: nat, i: nat)
    requires w > 0 && i < |Snippets(content, w)|
    ensures i * w < |content|
    ensures Snippets(content, w)[i] == Slice(content, i * w, i * w + w)
  {
    SnippetAtStart(content, w, i);
    WindowStartIsProduct(i, w);
  }

  /**
   * `get_code_snippets`: the windows of the file's content, in order, or no
   * snippets (after a warning) when the file is not found.
   */
  method GetCodeSnippets(fs: FileSystem, path: string) returns (snippets: seq<string>)
    ensures snippets == FileSnippets(fs, path)
  {
    snippets := [];
    if path !in fs {
      return;
    }
    var content := fs[path];
    var i := 0;
    while i < |content|
      invariant snippets + Snippets(content[Min(i, |content|)..], SnippetSize)
             == Snippets(content, SnippetSize)
      decreases |content| - i
    {
      var rest := content[i..];
      assert Min(i, |content|) == i;
      if |rest| <= SnippetSize {
        assert Snippets(rest, SnippetSize) == [rest];
        assert Slice(content, i, i + SnippetSize) == rest;
        assert content[Min(i + SnippetSize, |content|)..] == [];
      } else {
        assert Snippets(rest, SnippetSize) == [rest[..SnippetSize]] + Snippets(rest[SnippetSize..], SnippetSize);
        assert Slice(content, i, i + SnippetSize) == rest[..SnippetSize];
        assert content[Min(i + SnippetSize, |content|)..] == rest[SnippetSize..];
      }
      snippets := snippets + [Slice(content, i, i + SnippetSize)];
      i := i + SnippetSize;
    }
    assert content[Min(i, |content|)..] == [];
  }
}
