/**
 * `format_response_with_sources` of the terminal front end: the model's answer
 * followed, when there are citations, by a numbered "Sources" section.
 */
module Formatter {
  import opened Wrappers
  import opened Text

  /**
   * A citation as the service hands it over: a dictionary whose `title` and
   * `content` keys may be absent, or any other value, seen through `str()`.
   */
  datatype Source = Dict(title: Option<string>, content: Option<string>) | Other(repr: string)

  const Header: string := "\n\n\U{1F4DA} **Sources:**\n"
  const DefaultTitle: string := "Unknown"
  const MaxContent: nat := 200
  const Ellipsis: string := "..."

  /** The content shown for a dictionary citation: cut to 200 characters plus "..." when longer. */
  function Shown(content: string): (r: string)
    ensures |content| <= MaxContent ==> r == content
    ensures |content| > MaxContent ==>
              |r| == MaxContent + |Ellipsis| && r[..MaxContent] == content[..MaxContent] && r[MaxContent..] == Ellipsis
    ensures |r| <= MaxContent + |Ellipsis|
  {
    if |content| > MaxContent then content[..MaxContent] + Ellipsis else content
  }

  /** The title shown: the `title` value whenever the key is present (even ""), "Unknown" otherwise. */
  function TitleOf(title: Option<string>): (r: string)
    ensures title.Some? ==> r == title.value
    ensures title.None? ==> r == DefaultTitle
  {
    title.GetOr(DefaultTitle)
  }

  /** The lines for the `i`-th citation. */
  function Entry(i: nat, source: Source): (r: string)
    ensures |r| > |DecimalString(i)| && r[..|DecimalString(i)|] == DecimalString(i) && r[|DecimalString(i)|] == '.'
  {
    match source
    case Dict(title, content) =>
      DecimalString(i) + ". **" + TitleOf(title) + "**\n   " + Shown(content.GetOr("")) + "\n\n"
    case Other(repr) =>
      DecimalString(i) + ". " + repr + "\n"
  }

  /** The entries for `sources`, numbered from `n` on, in order. */
  function Entries(sources: seq<Source>, n: nat): (r: string)
    ensures r == "" <==> sources == []
    decreases |sources|
  {
    if sources == [] then "" else Entry(n, sources[0]) + Entries(sources[1..], n + 1)
  }

  /** What `format_response_with_sources(text, sources)` returns. */
  function Format(text: string, sources: Option<seq<Source>>): (r: string)
    ensures |text| <= |r| && r[..|text|] == text
  {
    if sources.None? || sources.value == [] then text
    else text + Header + Entries(sources.value, 1)
  }

  /** The builder of the reply, accumulating entries one citation at a time. */
  method FormatResponseWithSources(responseText: string, sources: Option<seq<Source>>)
    returns (formatted: string)
    ensures formatted == Format(responseText, sources)
  {
    formatted := responseText;
    if sources.Some? && sources.value != [] {
      var s := sources.value;
      formatted := formatted + Header;
      var i := 0;
      while i < |s|
        invariant 0 <= i <= |s|
        invariant formatted == responseText + Header + Entries(s[..i], 1)
      {
        ghost var done := Entries(s[..i], 1);
        var entry := Entry(i + 1, s[i]);
        EntriesSnoc(s, i, 1);
        formatted := formatted + entry;
        Associative(responseText + Header, done, entry);
        i := i + 1;
      }
      assert s[..|s|] == s;
    }
  }

  lemma Associative(a: string, b: string, c: string)
    ensures (a + b) + c == a + (b + c)
  {
  }

  /** Rendering two runs of citations one after the other continues the numbering. */
  lemma {:induction false} EntriesAppend(a: seq<Source>, b: seq<Source>, n: nat)
    ensures Entries(a + b, n) == Entries(a, n) + Entries(b, n + |a|)
    decreases |a|
  {
    if a == [] {
      assert a + b == b;
    } else {
      var e := Entry(n, a[0]);
      assert (a + b)[0] == a[0];
      assert (a + b)[1..] == a[1..] + b;
      EntriesAppend(a[1..], b, n + 1);
      calc {
        Entries(a + b, n);
        e + Entries(a[1..] + b, n + 1);
        e + (Entries(a[1..], n + 1) + Entries(b, n + |a|));
        { Associative(e, Entries(a[1..], n + 1), Entries(b, n + |a|)); }
        Entries(a, n) + Entries(b, n + |a|);
      }
    }
  }

  /** Rendering one more citation adds its entry at the end. */
  lemma EntriesSnoc(sources: seq<Source>, i: nat, n: nat)
    requires i < |sources|
    ensures Entries(sources[..i + 1], n) == Entries(sources[..i], n) + Entry(n + i, sources[i])
  {
    assert sources[..i + 1] == sources[..i] + [sources[i]];
    EntriesAppend(sources[..i], [sources[i]], n);
    assert Entries([sources[i]], n + i) == Entry(n + i, sources[i]) + Entries([], n + i + 1);
  }

  /** The `k`-th citation (from 0) is rendered as entry number `n + k`, between those before and after it. */
  lemma EntryInPlace(sources: seq<Source>, n: nat, k: nat)
    requires k < |sources|
    ensures Entries(sources, n) ==
              Entries(sources[..k], n) + Entry(n + k, sources[k]) + Entries(sources[k + 1..], n + k + 1)
  {
    var rest := sources[k..];
    assert sources == sources[..k] + rest;
    EntriesAppend(sources[..k], rest, n);
    assert rest[0] == sources[k] && rest[1..] == sources[k + 1..];
    assert Entries(rest, n + k) == Entry(n + k, sources[k]) + Entries(sources[k + 1..], n + k + 1);
  }

  /** The reply is the text unchanged exactly when there is no citation list or it is empty. */
  lemma FormatUnchangedIff(text: string, sources: Option<seq<Source>>)
    ensures Format(text, sources) == text <==> sources.None? || sources.value == []
  {
    if sources.Some? && sources.value != [] {
      assert |Format(text, sources)| >= |text| + |Header|;
    }
  }

  /** With citations, the reply starts with the text and the header, and the `k`-th citation is entry `k + 1`. */
  lemma FormatListsEverySource(text: string, sources: seq<Source>, k: nat)
    requires k < |sources|
    ensures Format(text, Some(sources)) ==
              text + Header + Entries(sources[..k], 1) + Entry(k + 1, sources[k]) + Entries(sources[k + 1..], k + 2)
  {
    var before, entry, after := Entries(sources[..k], 1), Entry(k + 1, sources[k]), Entries(sources[k + 1..], k + 2);
    assert Format(text, Some(sources)) == text + Header + Entries(sources, 1);
    EntryInPlace(sources, 1, k);
    assert Entries(sources, 1) == before + entry + after;
    Associative(text + Header, before + entry, after);
    Associative(text + Header, before, entry);
  }

  /** A dictionary citation shows its content cut at 200 characters; any other citation shows in full. */
  lemma EntryContent(i: nat, title: Option<string>, content: string, repr: string)
    ensures var prefix := DecimalString(i) + ". **" + TitleOf(title) + "**\n   ";
            var e := Entry(i, Dict(title, Some(content)));
            && e == prefix + (if |content| > MaxContent then content[..MaxContent] + Ellipsis else content) + "\n\n"
            && (|content| > MaxContent ==>
                  && |e| == |prefix| + MaxContent + |Ellipsis| + 2
                  && e[|prefix|..|prefix| + MaxContent] == content[..MaxContent]
                  && e[|prefix| + MaxContent..|prefix| + MaxContent + |Ellipsis|] == Ellipsis)
    ensures Entry(i, Dict(title, None)) == Entry(i, Dict(title, Some("")))
    ensures Entry(i, Other(repr)) == DecimalString(i) + ". " + repr + "\n"
  {
    var prefix := DecimalString(i) + ". **" + TitleOf(title) + "**\n   ";
    var e := Entry(i, Dict(title, Some(content)));
    if |content| > MaxContent {
      assert e == prefix + Shown(content) + "\n\n";
      assert e[|prefix|..|prefix| + MaxContent] == Shown(content)[..MaxContent];
    }
  }
}
