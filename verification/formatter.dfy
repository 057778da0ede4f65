/**
 * The row formatter of the embedding script: one record of the tweets table
 * becomes one descriptive line of text,
 *   "Tweet ID: <id>, Keyword: <keyword|N/A>, Location: <location|N/A>, Text: <text>."
 */
module Formatter {
  import opened Wrappers

  /** One row of the tweets table. The `id` is taken as already rendered to text. */
  datatype Record = Record(id: string, keyword: Option<string>, location: Option<string>, text: string)

  /** What a missing keyword or location is rendered as. */
  const Placeholder: string := "N/A"

  /** The four fixed labels of the template, in the order they appear. */
  const IdLabel: string := "Tweet ID: "
  const KeywordLabel: string := ", Keyword: "
  const LocationLabel: string := ", Location: "
  const TextLabel: string := ", Text: "

  /** An optional cell as it is shown: the value itself when present, the placeholder otherwise. */
  function OrPlaceholder(field: Option<string>): string {
    match field
    case Some(v) => v
    case None => Placeholder
  }

  /**
   * The formatted line of one row, built piece by piece like the source: the id
   * part, then the keyword part, then the location part, then the text part.
   */
  function FormatRow(row: Record): (s: string)
    ensures |s| > |IdLabel| && s[..|IdLabel|] == IdLabel
    ensures s[|s| - 1] == '.'
  {
    var withId := IdLabel + row.id;
    var withKeyword := withId + KeywordLabel + OrPlaceholder(row.keyword);
    var withLocation := withKeyword + LocationLabel + OrPlaceholder(row.location);
    var s := withLocation + TextLabel + row.text + ".";
    assert s[..|IdLabel|] == IdLabel by {
      assert s == IdLabel + (s[|IdLabel|..]);
    }
    s
  }

  /**
   * An independent, positional reading of the template: `s` has exactly the
   * length the pieces add up to, and each piece sits at its own offset.
   */
  ghost predicate FitsTemplate(s: string, row: Record) {
    var k, l := OrPlaceholder(row.keyword), OrPlaceholder(row.location);
    var idEnd := |IdLabel| + |row.id|;
    var keywordEnd := idEnd + |KeywordLabel| + |k|;
    var locationEnd := keywordEnd + |LocationLabel| + |l|;
    var textEnd := locationEnd + |TextLabel| + |row.text|;
    && |s| == textEnd + 1
    && s[..|IdLabel|] == IdLabel
    && s[|IdLabel|..idEnd] == row.id
    && s[idEnd..idEnd + |KeywordLabel|] == KeywordLabel
    && s[idEnd + |KeywordLabel|..keywordEnd] == k
    && s[keywordEnd..keywordEnd + |LocationLabel|] == LocationLabel
    && s[keywordEnd + |LocationLabel|..locationEnd] == l
    && s[locationEnd..locationEnd + |TextLabel|] == TextLabel
    && s[locationEnd + |TextLabel|..textEnd] == row.text
    && s[textEnd] == '.'
  }

  /** The formatted line puts every field, verbatim or as the placeholder, in its place. */
  lemma FormatRowFitsTemplate(row: Record)
    ensures FitsTemplate(FormatRow(row), row)
  {
    var s := FormatRow(row);
    var k, l := OrPlaceholder(row.keyword), OrPlaceholder(row.location);
    assert s == IdLabel + row.id + KeywordLabel + k + LocationLabel + l + TextLabel + row.text + ".";
  }

  /** The template admits exactly one line per row: any line fitting it is the formatted one. */
  lemma TemplateDeterminesLine(s: string, row: Record)
    requires FitsTemplate(s, row)
    ensures s == FormatRow(row)
  {
    var k, l := OrPlaceholder(row.keyword), OrPlaceholder(row.location);
    var idEnd := |IdLabel| + |row.id|;
    var keywordEnd := idEnd + |KeywordLabel| + |k|;
    var locationEnd := keywordEnd + |LocationLabel| + |l|;
    var textEnd := locationEnd + |TextLabel| + |row.text|;
    var o1, o2 := |IdLabel|, idEnd;
    var o3, o4 := idEnd + |KeywordLabel|, keywordEnd;
    var o5, o6 := keywordEnd + |LocationLabel|, locationEnd;
    var o7, o8 := locationEnd + |TextLabel|, textEnd;
    var p1 := IdLabel;
    var p2 := p1 + row.id;
    var p3 := p2 + KeywordLabel;
    var p4 := p3 + k;
    var p5 := p4 + LocationLabel;
    var p6 := p5 + l;
    var p7 := p6 + TextLabel;
    var p8 := p7 + row.text;
    PrefixExtends(s, o1, o2, p1, row.id);
    PrefixExtends(s, o2, o3, p2, KeywordLabel);
    PrefixExtends(s, o3, o4, p3, k);
    PrefixExtends(s, o4, o5, p4, LocationLabel);
    PrefixExtends(s, o5, o6, p5, l);
    PrefixExtends(s, o6, o7, p6, TextLabel);
    PrefixExtends(s, o7, o8, p7, row.text);
    PrefixExtends(s, o8, |s|, p8, ".");
    assert s == s[..|s|];
  }

  lemma PrefixExtends(s: string, i: nat, j: nat, prefix: string, piece: string)
    requires i <= j <= |s|
    requires s[..i] == prefix && s[i..j] == piece
    ensures s[..j] == prefix + piece
  {
    assert s[..j] == s[..i] + s[i..j];
  }

  /**
   * A field is shown as "N/A" exactly when it is missing or holds "N/A" itself:
   * the line does not tell a missing keyword or location from a literal "N/A".
   * A present field is shown verbatim.
   */
  lemma PlaceholderShownIff(field: Option<string>)
    ensures OrPlaceholder(field) == Placeholder <==> field == None || field == Some(Placeholder)
    ensures field.Some? ==> OrPlaceholder(field) == field.value
  {
  }

  /** Every formatted line is non-empty, so the encoder never drops it. */
  lemma FormatRowNonEmpty(row: Record)
    ensures FormatRow(row) != []
  {
  }

  /** The rows of the table mapped through the formatter, in table order. */
  function FormatAll(rows: seq<Record>): seq<string> {
    seq(|rows|, i requires 0 <= i < |rows| => FormatRow(rows[i]))
  }
}
