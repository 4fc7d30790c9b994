/** What discovery makes of a path: the language of a file is a function of its extension alone. */
module Discovery {
  import opened Wrappers

  function LowerAscii(s: string): string {
    if s == "" then "" else [if 'A' <= s[0] <= 'Z' then s[0] - 'A' + 'a' else s[0]] + LowerAscii(s[1..])
  }

  /** What follows the last `c`; `None` when there is none. */
  function AfterLast(s: string, c: char): Option<string> {
    if s == "" then None
    else if s[|s| - 1] == c then Some("")
    else
      match AfterLast(s[..|s| - 1], c)
      case None => None
      case Some(t) => Some(t + [s[|s| - 1]])
  }

  function FileName(path: string): string {
    match AfterLast(path, '/')
    case None => path
    case Some(name) => name
  }

  /** A dot that begins the name begins no extension. */
  function Extension(path: string): Option<string> {
    var name := FileName(path);
    if name == "" then None else AfterLast(name[1..], '.')
  }

  /** The language recorded with the chunks of a file; empty for a file that is passed over. */
  function LanguageOf(path: string): string {
    match Extension(path)
    case None => ""
    case Some(extension) => LanguageForExtension(LowerAscii(extension))
  }

  function LanguageForExtension(e: string): string {
    if e == "rs" then "rust"
    else if e == "ts" then "typescript"
    else if e == "tsx" then "tsx"
    else if e in ["js", "mjs", "cjs", "jsx"] then "javascript"
    else if e in ["py", "pyi"] then "python"
    else if e == "go" then "go"
    else if e in ["cpp", "cxx", "cc", "h", "hpp", "hxx"] then "cpp"
    else if e in ["md", "markdown"] then "markdown"
    else if e == "toml" then "toml"
    else if e in ["yaml", "yml"] then "yaml"
    else if e == "json" then "json"
    else if e == "txt" then "text"
    else ""
  }

  // --- The table of languages -----------------------------------------------

  /** Equal but for the case of ASCII letters; the second is in small letters. */
  predicate SameIgnoringCase(a: string, b: string) {
    |a| == |b| && forall k :: 0 <= k < |a| ==> a[k] == b[k] || ('a' <= b[k] <= 'z' && a[k] == b[k] - 'a' + 'A')
  }

  lemma {:induction false} LowerMeaning(s: string)
    ensures |LowerAscii(s)| == |s|
    ensures forall k :: 0 <= k < |s| ==> LowerAscii(s)[k] == if 'A' <= s[k] <= 'Z' then s[k] - 'A' + 'a' else s[k]
  {
    if s != "" {
      LowerMeaning(s[1..]);
      assert forall k :: 1 <= k < |s| ==> s[k] == s[1..][k - 1];
    }
  }

  lemma LoweredIs(a: string, b: string)
    requires SameIgnoringCase(a, b) && forall k :: 0 <= k < |b| ==> !('A' <= b[k] <= 'Z')
    ensures LowerAscii(a) == b
  {
    LowerMeaning(a);
    hide LowerAscii;
    var low := LowerAscii(a);
    forall k | 0 <= k < |b|
      ensures low[k] == b[k]
    {
    }
  }

  lemma {:induction false} LastFound(front: string, c: char, back: string)
    requires c !in back
    ensures AfterLast(front + [c] + back, c) == Some(back)
    decreases |back|
  {
    var s := front + [c] + back;
    if back == "" {
      assert s[|s| - 1] == c;
    } else {
      var rest := back[..|back| - 1];
      assert s[..|s| - 1] == front + [c] + rest && s[|s| - 1] == back[|back| - 1];
      assert back[|back| - 1] in back;
      LastFound(front, c, rest);
      assert rest + [back[|back| - 1]] == back;
    }
  }

  lemma {:induction false} NoneFound(s: string, c: char)
    requires c !in s
    ensures AfterLast(s, c) == None
  {
    if s != "" { NoneFound(s[..|s| - 1], c); }
  }

  lemma NameOfPath(folder: string, name: string)
    requires '/' !in name && (folder == "" || folder[|folder| - 1] == '/')
    ensures FileName(folder + name) == name
  {
    if folder == "" {
      assert folder + name == name;
      NoneFound(name, '/');
    } else {
      assert folder + name == folder[..|folder| - 1] + ['/'] + name;
      LastFound(folder[..|folder| - 1], '/', name);
    }
  }

  /** The language of each extension of a program, written in small letters. */
  ghost predicate CodeIs(e: string, language: string) {
    && (language == "rust" <==> e == "rs")
    && (language == "typescript" <==> e == "ts")
    && (language == "tsx" <==> e == "tsx")
    && (language == "javascript" <==> e in ["js", "mjs", "cjs", "jsx"])
    && (language == "python" <==> e in ["py", "pyi"])
    && (language == "go" <==> e == "go")
    && (language == "cpp" <==> e in ["cpp", "cxx", "cc", "h", "hpp", "hxx"])
  }

  /** And of each extension of a text; no other has a language. */
  ghost predicate TextIs(e: string, language: string) {
    && (language == "markdown" <==> e in ["md", "markdown"])
    && (language == "toml" <==> e == "toml")
    && (language == "yaml" <==> e in ["yaml", "yml"])
    && (language == "json" <==> e == "json")
    && (language == "text" <==> e == "txt")
    && language in ["rust", "typescript", "tsx", "javascript", "python", "go", "cpp", "markdown", "toml", "yaml",
                    "json", "text", ""]
  }

  ghost predicate LanguageIs(e: string, language: string) { CodeIs(e, language) && TextIs(e, language) }

  lemma CodeTable(e: string)
    ensures CodeIs(e, LanguageForExtension(e))
  {
  }

  lemma TextTable(e: string)
    ensures TextIs(e, LanguageForExtension(e))
  {
  }

  /** A file in any folder has the language of its extension, in any case of letters. */
  lemma LanguageByExtension(folder: string, stem: string, extension: string, e: string)
    requires folder == "" || folder[|folder| - 1] == '/'
    requires stem != "" && '/' !in stem && '/' !in extension && '.' !in extension
    requires SameIgnoringCase(extension, e) && forall k :: 0 <= k < |e| ==> !('A' <= e[k] <= 'Z')
    ensures LanguageIs(e, LanguageOf(folder + (stem + "." + extension)))
  {
    var name := stem + "." + extension;
    NameOfPath(folder, name);
    assert name[1..] == stem[1..] + ['.'] + extension;
    LastFound(stem[1..], '.', extension);
    LoweredIs(extension, e);
    CodeTable(e);
    TextTable(e);
    hide SameIgnoringCase, LowerAscii, CodeIs, TextIs, LanguageForExtension, AfterLast, FileName;
  }

  /** A name without a dot, or with none but at its front, has no language. */
  lemma NoExtensionNoLanguage(folder: string, name: string)
    requires (folder == "" || folder[|folder| - 1] == '/') && name != "" && '/' !in name && '.' !in name[1..]
    ensures LanguageOf(folder + name) == ""
  {
    NameOfPath(folder, name);
    NoneFound(name[1..], '.');
  }
}
