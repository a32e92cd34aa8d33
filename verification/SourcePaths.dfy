/**
 Manifest paths (scripts/body_qualification_io.py, lines 23-38): splitting at `/` and the refusal of
 every component that could leave the owned tree or touch Git's own files.
 */
module SourcePaths {
  import opened Wrappers

  /** Python's `text.split("/")`. */
  function Split(text: string): (parts: seq<string>)
    ensures parts != []
  {
    if text == "" then [""]
    else if text[0] == '/' then [""] + Split(text[1..])
    else
      var rest := Split(text[1..]);
      [[text[0]] + rest[0]] + rest[1..]
  }

  function Join(parts: seq<string>): string
    requires parts != []
  {
    if |parts| == 1 then parts[0] else parts[0] + "/" + Join(parts[1..])
  }

  const GIT_FILES := {".git", ".gitattributes", ".gitignore", ".gitmodules", ".lfsconfig"}

  /** `casefold` is Python's Unicode case folding, a parameter of the model. */
  ghost predicate PlainPart(part: string, casefold: string -> string) {
    part !in {"", ".", ".."} && '/' !in part && '\\' !in part && '\0' !in part &&
    casefold(part) !in {".git", ".gitattributes", ".gitignore", ".gitmodules", ".lfsconfig"}
  }

  ghost predicate PlainPath(parts: seq<string>, casefold: string -> string) {
    parts != [] && forall i :: 0 <= i < |parts| ==> PlainPart(parts[i], casefold)
  }

  predicate Absolute(path: string) {
    path != "" && path[0] == '/'
  }

  function SourceParts(relative: string, casefold: string -> string): Option<seq<string>> {
    var parts := Split(relative);
    if relative == "" || (exists i :: 0 <= i < |parts| && parts[i] in {"", ".", ".."}) || Absolute(relative) ||
       '\\' in relative || '\0' in relative then None
    else if exists i :: 0 <= i < |parts| && casefold(parts[i]) in GIT_FILES then None
    else Some(parts)
  }

  lemma {:induction false} JoinSplit(text: string)
    ensures Join(Split(text)) == text
    ensures forall i :: 0 <= i < |Split(text)| ==> '/' !in Split(text)[i]
    ensures forall i, c :: 0 <= i < |Split(text)| && c in Split(text)[i] ==> c in text
    ensures forall c :: c in text && c != '/' ==> exists i :: 0 <= i < |Split(text)| && c in Split(text)[i]
  {
    if text == "" {
    } else {
      var rest := Split(text[1..]);
      JoinSplit(text[1..]);
      assert text == [text[0]] + text[1..];
      var parts := Split(text);
      if text[0] == '/' {
        assert parts[1..] == rest;
        forall c | c in text && c != '/' ensures exists i :: 0 <= i < |parts| && c in parts[i] {
          var i :| 0 <= i < |rest| && c in rest[i];
          assert parts[i + 1] == rest[i];
        }
      } else {
        assert parts[1..] == rest[1..];
        assert parts[0] == [text[0]] + rest[0];
        forall c | c in text && c != '/' ensures exists i :: 0 <= i < |parts| && c in parts[i] {
          if c == text[0] {
            assert c in parts[0];
          } else {
            var i :| 0 <= i < |rest| && c in rest[i];
            assert c in parts[i];
          }
        }
      }
    }
  }

  lemma {:induction false} SplitJoin(parts: seq<string>)
    requires parts != [] && forall i :: 0 <= i < |parts| ==> '/' !in parts[i]
    ensures Split(Join(parts)) == parts
    decreases |parts|, |parts[0]|
  {
    var text := Join(parts);
    if parts[0] == "" {
      if |parts| == 1 {
      } else {
        SplitJoin(parts[1..]);
        assert text == "/" + Join(parts[1..]);
        assert text[1..] == Join(parts[1..]);
      }
    } else {
      var shorter := [parts[0][1..]] + parts[1..];
      assert parts[0] == [parts[0][0]] + parts[0][1..];
      assert shorter[1..] == parts[1..];
      SplitJoin(shorter);
      assert text == [parts[0][0]] + Join(shorter);
      assert text[1..] == Join(shorter);
    }
  }

  /**
   Acceptance is exact and loses nothing: a path is accepted precisely when it is the `/`-join of
   plain components, and those components are the result.
   */
  lemma SourcePartsExact(relative: string, parts: seq<string>, casefold: string -> string)
    ensures SourceParts(relative, casefold) == Some(parts) <==> PlainPath(parts, casefold) && relative == Join(parts)
  {
    JoinSplit(relative);
    if PlainPath(parts, casefold) && relative == Join(parts) {
      SplitJoin(parts);
      assert Split(relative) == parts;
      assert parts[0] != "";
      assert relative[0] == parts[0][0];
    }
    if SourceParts(relative, casefold) == Some(parts) {
      forall i | 0 <= i < |parts| ensures PlainPart(parts[i], casefold) {
        assert parts[i] !in {"", ".", ".."};
      }
    }
  }
}
