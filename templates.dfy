/**
 * The template renderer: `template.format_map(entry_with_default)` for templates
 * made of literal text and plain `{name}` placeholders, where a missing key reads
 * as the empty string (the `defaultdict(str, ...)` of `format_entry`).
 */
module Templates {
  import opened Values

  datatype Piece = Lit(text: string) | Hole(name: string)

  type Template = seq<Piece>

  /** The text a placeholder is replaced by: `str(value)`, or "" for a missing key. */
  function Fill(m: Record, name: string): string
  {
    match Lookup(m, name)
    case None => ""
    case Some(v) => Show(v)
  }

  /** What one piece contributes: its literal text, or the filled placeholder. */
  function PieceText(p: Piece, m: Record): string
  {
    match p
    case Lit(x) => x
    case Hole(n) => Fill(m, n)
  }

  function Render(t: Template, m: Record): string
  {
    if t == [] then "" else PieceText(t[0], m) + Render(t[1..], m)
  }

  /** The literal text of a template, every placeholder dropped. */
  function Literals(t: Template): string
  {
    if t == [] then ""
    else (match t[0] case Lit(x) => x case Hole(_) => "") + Literals(t[1..])
  }

  predicate StartsWith(s: string, p: string)
  {
    |p| <= |s| && s[..|p|] == p
  }

  predicate EndsWith(s: string, p: string)
  {
    |p| <= |s| && s[|s| - |p|..] == p
  }

  const Divider: string := "\n\n%%%\n\n"

  const EndMarker: string := "\n\n%END%\n\n"

  /** PROMPT_TEMPLATE, written as pieces. */
  function PromptTemplate(): Template
  {
    [Lit("\n"), Hole("title"), Lit("\n\nby "), Hole("authors"), Lit("\nTags: "), Hole("tags"),
     Lit("\nVotes: "), Hole("votes"), Lit("\nKarma: "), Hole("score"), Lit("\n\n"), Hole("text"),
     Lit(Divider)]
  }

  /** COMPLETION_TEMPLATE, written as pieces. */
  function CompletionTemplate(): Template
  {
    [Lit(" "), Hole("comments"), Lit(EndMarker)]
  }

  /** COMMENT_TEMPLATE, written as pieces. */
  function CommentTemplate(): Template
  {
    [Lit("Comment by "), Hole("authors"), Lit("\nVotes: "), Hole("votes"), Lit("\nKarma: "),
     Hole("score"), Lit("\n\n"), Hole("text")]
  }

  lemma {:induction false} RenderAppend(t1: Template, t2: Template, m: Record)
    ensures Render(t1 + t2, m) == Render(t1, m) + Render(t2, m)
  {
    if t1 != [] {
      assert (t1 + t2)[0] == t1[0] && (t1 + t2)[1..] == t1[1..] + t2;
      RenderAppend(t1[1..], t2, m);
    } else {
      assert t1 + t2 == t2;
    }
  }

  /**
   * Rendering never fails on a placeholder whose key is absent: with no key of
   * the template present, what is left is exactly the literal text.
   */
  lemma {:induction false} RenderMissingKeys(t: Template, m: Record)
    requires forall i :: 0 <= i < |t| && t[i].Hole? ==> t[i].name !in Keys(m)
    ensures Render(t, m) == Literals(t)
  {
    if t != [] {
      if t[0].Hole? {
        FindSpec(m, t[0].name);
      }
      RenderMissingKeys(t[1..], m);
    }
  }

  /** A template renders the same from two records that fill each of its placeholders alike. */
  lemma {:induction false} RenderAgree(t: Template, m1: Record, m2: Record)
    requires forall i :: 0 <= i < |t| && t[i].Hole? ==> Fill(m1, t[i].name) == Fill(m2, t[i].name)
    ensures Render(t, m1) == Render(t, m2)
  {
    if t != [] {
      assert PieceText(t[0], m1) == PieceText(t[0], m2);
      RenderAgree(t[1..], m1, m2);
    }
  }

  /** Literal text appears verbatim between what its neighbours render to. */
  lemma RenderLiteral(t1: Template, x: string, t2: Template, m: Record)
    ensures Render(t1 + [Lit(x)] + t2, m) == Render(t1, m) + x + Render(t2, m)
  {
    RenderAppend(t1 + [Lit(x)], t2, m);
    RenderAppend(t1, [Lit(x)], m);
  }

  /** Every prompt starts with a newline and ends with the divider. */
  lemma PromptShape(m: Record)
    ensures StartsWith(Render(PromptTemplate(), m), "\n")
    ensures EndsWith(Render(PromptTemplate(), m), Divider)
  {
    var t := PromptTemplate();
    RenderLiteral(t[..12], Divider, [], m);
    assert t == t[..12] + [Lit(Divider)] + [];
    var r := Render(t, m);
    assert r == Render(t[..12], m) + Divider;
    assert t[..12] == [Lit("\n")] + t[1..12];
    assert r[..1] == "\n";
  }

  /** Every completion starts with a space and ends with the end marker. */
  lemma CompletionShape(m: Record)
    ensures StartsWith(Render(CompletionTemplate(), m), " ")
    ensures EndsWith(Render(CompletionTemplate(), m), EndMarker)
    ensures Render(CompletionTemplate(), m) == " " + Fill(m, "comments") + EndMarker
  {
    var t := CompletionTemplate();
    assert t[1..] == [Hole("comments"), Lit(EndMarker)];
    assert t[1..][1..] == [Lit(EndMarker)];
    assert [Lit(EndMarker)][1..] == [];
    assert Render(t[1..][1..], m) == EndMarker;
    assert Render(t[1..], m) == Fill(m, "comments") + EndMarker;
    var r := Render(t, m);
    assert r == " " + Fill(m, "comments") + EndMarker;
    assert r[|r| - |EndMarker|..] == EndMarker;
  }
}
