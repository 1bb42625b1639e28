/** The `DownloadSummaryParser` node: renders the summary list as display text. */
module SummaryParser {

  /** The line one entry becomes. */
  function Bullet(e: string): string {
    "- " + e + "\n"
  }

  /** The lines of all entries, in list order. */
  function Bullets(entries: seq<string>): string {
    if entries == [] then "" else Bullet(entries[0]) + Bullets(entries[1..])
  }

  /** The text `parse` returns: a leading line break, then one line per entry. */
  function Rendered(entries: seq<string>): string {
    "\n" + Bullets(entries)
  }

  lemma {:induction false} BulletsConcat(xs: seq<string>, ys: seq<string>)
    ensures Bullets(xs + ys) == Bullets(xs) + Bullets(ys)
  {
    if xs != [] {
      assert (xs + ys)[1..] == xs[1..] + ys;
      BulletsConcat(xs[1..], ys);
    } else {
      assert xs + ys == ys;
    }
  }

  /** Appending entries to the summary only extends the rendered text. */
  lemma RenderedExtends(xs: seq<string>, ys: seq<string>)
    ensures Rendered(xs + ys) == Rendered(xs) + Bullets(ys)
  {
    BulletsConcat(xs, ys);
  }

  function CountNewlines(s: string): nat {
    if s == [] then 0 else (if s[0] == '\n' then 1 else 0) + CountNewlines(s[1..])
  }

  lemma {:induction false} CountNewlinesConcat(a: string, b: string)
    ensures CountNewlines(a + b) == CountNewlines(a) + CountNewlines(b)
  {
    if a != [] {
      assert (a + b)[1..] == a[1..] + b;
      CountNewlinesConcat(a[1..], b);
    } else {
      assert a + b == b;
    }
  }

  /** An entry free of line breaks renders as exactly one line. */
  lemma BulletIsOneLine(e: string)
    requires '\n' !in e
    ensures CountNewlines(Bullet(e)) == 1
  {
    CountNewlinesConcat("- " + e, "\n");
    CountNewlinesConcat("- ", e);
    NoNewlines(e);
  }

  lemma {:induction false} NoNewlines(s: string)
    requires '\n' !in s
    ensures CountNewlines(s) == 0
  {
    if s != [] {
      assert '\n' !in s[1..];
      NoNewlines(s[1..]);
    }
  }

  /** N entries free of line breaks render as N lines after the leading line break. */
  lemma {:induction false} RenderedLineCount(entries: seq<string>)
    requires forall i :: 0 <= i < |entries| ==> '\n' !in entries[i]
    ensures CountNewlines(Rendered(entries)) == |entries| + 1
  {
    CountNewlinesConcat("\n", Bullets(entries));
    BulletsLineCount(entries);
  }

  lemma {:induction false} BulletsLineCount(entries: seq<string>)
    requires forall i :: 0 <= i < |entries| ==> '\n' !in entries[i]
    ensures CountNewlines(Bullets(entries)) == |entries|
  {
    if entries != [] {
      CountNewlinesConcat(Bullet(entries[0]), Bullets(entries[1..]));
      BulletIsOneLine(entries[0]);
      BulletsLineCount(entries[1..]);
    }
  }

  /** Two entries render as the leading line break and two bullet lines. */
  lemma RenderedTwoEntries(a: string, b: string)
    ensures Rendered([a, b]) == "\n- " + a + "\n- " + b + "\n"
  {
    assert [a, b][1..] == [b];
    assert Bullets([b]) == Bullet(b);
  }

  /** `parse(summary)`: the rendering loop over the list. */
  method Parse(summary: seq<string>) returns (text: string)
    ensures text == Rendered(summary)
    ensures summary == [] ==> text == "\n"
    ensures |text| >= 1 && text[0] == '\n'
  {
    text := "\n";
    for i := 0 to |summary|
      invariant text == "\n" + Bullets(summary[..i])
    {
      BulletsConcat(summary[..i], [summary[i]]);
      assert summary[..i + 1] == summary[..i] + [summary[i]];
      text := text + "- " + summary[i] + "\n";
    }
    assert summary[..|summary|] == summary;
  }
}
