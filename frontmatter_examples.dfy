/** The repository's ParseYAML unit tests, stated for every value of the
    same shape: documents whose block is `key: value` lines between "---"
    and "...". */
module FrontMatterExamples {
  import opened Wrappers
  import opened Text
  import opened Metadata
  import opened FrontMatter

  /** The ParseYAML_ExpectedValues test: a block setting all five
      well-known keys overrides every default, and the remainder is the
      text after "...". */
  lemma ParseYAMLExpectedValues(title: string, subtitle: string, author: string, date: string, copyright: string,
                                body: string, defaults: Dict)
    requires IsValue(title) && IsValue(subtitle) && IsValue(author) && IsValue(date) && IsValue(copyright)
    ensures var keys := ["title", "subtitle", "author", "date", "copyright"];
      var (output, meta) := Parse(Document(SettingLines(keys, [title, subtitle, author, date, copyright]), body), defaults);
      && output == body
      && Get(meta, "title") == Some(title)
      && Get(meta, "subtitle") == Some(subtitle)
      && Get(meta, "author") == Some(author)
      && Get(meta, "date") == Some(date)
      && Get(meta, "copyright") == Some(copyright)
  {
    SettingsBlock(["title", "subtitle", "author", "date", "copyright"], [title, subtitle, author, date, copyright], body, defaults);
    AllFiveSet(title, subtitle, author, date, copyright, defaults);
  }

  lemma AllFiveSet(title: string, subtitle: string, author: string, date: string, copyright: string, d: Dict)
    ensures var meta := PutAll(d, ["title", "subtitle", "author", "date", "copyright"], [title, subtitle, author, date, copyright]);
      && Get(meta, "title") == Some(title)
      && Get(meta, "subtitle") == Some(subtitle)
      && Get(meta, "author") == Some(author)
      && Get(meta, "date") == Some(date)
      && Get(meta, "copyright") == Some(copyright)
  {
    var keys := ["title", "subtitle", "author", "date", "copyright"];
    var values := [title, subtitle, author, date, copyright];
    PutAllDistinct(d, keys, values);
    assert keys[0] == "title";
  }

  /** The ParseYAML_ExpectedDefaults test: a block setting only title and
      date leaves author, subtitle and copyright at their defaults. */
  lemma ParseYAMLExpectedDefaults(title: string, date: string, body: string,
                                  defaultAuthor: string, defaultTitle: string, today: string, year: string)
    requires IsValue(title) && IsValue(date)
    ensures var (output, meta) := Parse(Document(SettingLines(["title", "date"], [title, date]), body),
                                        Defaults(defaultAuthor, defaultTitle, today, year));
      && output == body
      && Get(meta, "title") == Some(title)
      && Get(meta, "date") == Some(date)
      && Get(meta, "author") == Some(defaultAuthor)
      && Get(meta, "subtitle") == Some("")
      && Get(meta, "copyright") == Some(year)
  {
    var d := Defaults(defaultAuthor, defaultTitle, today, year);
    var keys := ["title", "date"];
    var values := [title, date];
    SettingsBlock(keys, values, body, d);
    PutAllDistinct(d, keys, values);
    DefaultsValues(defaultAuthor, defaultTitle, today, year);
    PutAllKeeps(d, keys, values, "author");
    PutAllKeeps(d, keys, values, "subtitle");
    PutAllKeeps(d, keys, values, "copyright");
  }
}
