/**
 The accessor CSL source: a module that imports the configuration file as a
 comptime struct and defines `has_value`, `get_value` and `get_value_or`
 over it. The only varying part is the path of the data file, spliced
 between two fixed texts without any escaping.
 */
module AccessorSource {
  import opened Wrappers
  import PyStr

  /** The text before the data path: the opening comment and the start of the import. */
  const Prefix: string :=
      "// autogenerated by compconf\n"
    + "const _data = @import_comptime_value(comptime_struct, \""

  /** The text after the data path: the end of the import, then the accessors. */
  const Suffix: string := "\");\n\n" + Accessors

  /** The three accessor functions `has_value`, `get_value` and `get_value_or`. */
  const Accessors: string :=
      "fn has_value(comptime field_name: comptime_string) bool {\n"
    + "    return @has_field(_data, field_name);\n"
    + "}\n"
    + "\n"
    + "fn get_value(comptime field_name: comptime_string, comptime T: type) T {\n"
    + "    const field_value = @field(_data, field_name);\n"
    + "    const message = @strcat(\n"
    + "        \"COMPCONF field `\",\n"
    + "        field_name,\n"
    + "        \"` configured with value \",\n"
    + "    );\n"
    + "    @comptime_print(message, field_value);\n"
    + "    return field_value;\n"
    + "}\n"
    + "\n"
    + "fn get_value_or(\n"
    + "    comptime field_name: comptime_string, comptime default_value: anytype\n"
    + ") @type_of(default_value) {\n"
    + "    const has_value = has_value(field_name);\n"
    + "    if (has_value) {\n"
    + "        return get_value(field_name, @type_of(default_value));\n"
    + "    } else {\n"
    + "        const message = @strcat(\n"
    + "            \"COMPCONF missing field `\",\n"
    + "            field_name,\n"
    + "            \"`, falling back to default \",\n"
    + "        );\n"
    + "        @comptime_print(message, default_value);\n"
    + "        return default_value;\n"
    + "    }\n"
    + "}"

  /** The accessor source importing the data file at `dataPath`. */
  function MakeCslSource(dataPath: string): string
  {
    Prefix + dataPath + Suffix
  }

  /** The three parts of a concatenation, read back by position. */
  lemma Splice(a: string, b: string, c: string)
    ensures a <= a + b + c
    ensures (a + b + c)[|a|..] == b + c
    ensures |a + b + c| >= |a| + |c|
    ensures (a + b + c)[|a|..|a + b + c| - |c|] == b
    ensures (a + b + c)[|a + b + c| - |c|..] == c
  {
    assert (a + b + c)[|a|..] == b + c;
  }

  /** What lies between `before` and `after` in `text`, when `text` is framed by them. */
  function Between(before: string, after: string, text: string): Option<string>
  {
    if |text| >= |before| + |after| && before <= text && text[|text| - |after|..] == after
    then Some(text[|before|..|text| - |after|])
    else None
  }

  /** The data path of an accessor source: what lies between the two fixed texts. */
  function DataPathOf(text: string): Option<string>
  {
    Between(Prefix, Suffix, text)
  }

  /** The data path is recovered from the source it was spliced into. */
  lemma DataPathRoundTrip(dataPath: string)
    ensures DataPathOf(MakeCslSource(dataPath)) == Some(dataPath)
  {
    BetweenSplice(Prefix, dataPath, Suffix);
  }

  lemma BetweenSplice(a: string, b: string, c: string)
    ensures Between(a, c, a + b + c) == Some(b)
  {
    Splice(a, b, c);
  }

  /** Different data paths give different sources. */
  lemma SourceInjective(p: string, q: string)
    requires MakeCslSource(p) == MakeCslSource(q)
    ensures p == q
  {
    DataPathRoundTrip(p);
    DataPathRoundTrip(q);
  }

  /** The string literal opened at the end of `before`: the characters after it up to the next `"`. */
  function QuotedAfter(before: string, text: string): Option<string>
  {
    if before <= text then
      var t := text[|before|..];
      var n := PyStr.RunBefore(t, '"');
      if n < |t| then Some(t[..n]) else None
    else None
  }

  /** The path the import statement reads its data from. */
  function ImportedPath(text: string): Option<string>
  {
    QuotedAfter(Prefix, text)
  }

  /** The text after the path starts by closing the literal. */
  lemma SuffixCloses()
    ensures |Suffix| > 0 && Suffix[0] == '"'
  {
  }

  /** A run up to the first `"` stops at the end of `p` exactly when `p` has none. */
  lemma RunOverPath(p: string, s: string)
    requires |s| > 0 && s[0] == '"'
    ensures PyStr.RunBefore(p + s, '"') < |p + s|
    ensures (p + s)[..PyStr.RunBefore(p + s, '"')] == p <==> '"' !in p
  {
    var t := p + s;
    var n := PyStr.RunBefore(t, '"');
    if '"' !in p {
      assert t[|p|] == '"';
      assert t[..|p|] == p;
    } else {
      var i :| 0 <= i < |p| && p[i] == '"';
      assert t[i] == '"';
    }
  }

  lemma QuotedSplice(a: string, p: string, s: string)
    requires |s| > 0 && s[0] == '"'
    ensures QuotedAfter(a, a + p + s) == Some(p) <==> '"' !in p
  {
    Splice(a, p, s);
    RunOverPath(p, s);
  }

  /**
   The import names the data file exactly when its path holds no `"`: the
   path is not escaped, so a `"` in it ends the literal early.
   */
  lemma ImportedPathExact(dataPath: string)
    ensures ImportedPath(MakeCslSource(dataPath)) == Some(dataPath) <==> '"' !in dataPath
  {
    SuffixCloses();
    QuotedSplice(Prefix, dataPath, Suffix);
  }
}
