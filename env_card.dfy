/**
 * The `previewContent` expression of src/components/EnvCard.jsx: the first
 * three lines of an environment file, with `"\n..."` appended when the file
 * has more.
 */
module EnvCard {
  import opened Text

  const PreviewLines := 3
  const Ellipsis := "\n..."

  /** `content.split("\n").slice(0, 3).join("\n") + (content.split("\n").length > 3 ? "\n..." : "")` */
  function Preview(content: string): (r: string)
    ensures |Split(content, '\n')| <= PreviewLines ==> r == content
    ensures |Split(content, '\n')| > PreviewLines ==> r == Join(Split(content, '\n')[..PreviewLines], '\n') + Ellipsis
  {
    var lines := Split(content, '\n');
    var shown := lines[..if |lines| < PreviewLines then |lines| else PreviewLines];
    if |lines| <= PreviewLines then
      assert shown == lines;
      JoinSplit(content, '\n');
      Join(shown, '\n')
    else
      Join(shown, '\n') + Ellipsis
  }

  /** The preview with the ellipsis taken off is the beginning of the content. */
  lemma PreviewIsPrefix(content: string)
    ensures var r := Preview(content);
      if |Split(content, '\n')| > PreviewLines
      then r[|r| - |Ellipsis|..] == Ellipsis && r[..|r| - |Ellipsis|] <= content
      else r == content
  {
    var lines := Split(content, '\n');
    if |lines| > PreviewLines {
      SplitPrefix(content, '\n', PreviewLines);
      var r := Preview(content);
      var body := Join(lines[..PreviewLines], '\n');
      assert r == body + Ellipsis;
      assert r[..|r| - |Ellipsis|] == body;
      assert r[|r| - |Ellipsis|..] == Ellipsis;
    }
  }

  /** The preview never has more than four lines: the first three of the content and `...`. */
  lemma PreviewLineCount(content: string)
    ensures |Split(Preview(content), '\n')| <= PreviewLines + 1
    ensures |Split(content, '\n')| > PreviewLines ==>
      Split(Preview(content), '\n') == Split(content, '\n')[..PreviewLines] + ["..."]
  {
    var lines := Split(content, '\n');
    if |lines| > PreviewLines {
      var shown := lines[..PreviewLines];
      var parts := shown + ["..."];
      assert forall k :: 0 <= k < PreviewLines ==> parts[k] == lines[k];
      assert '\n' !in "...";
      assert parts[..PreviewLines] == shown && parts[PreviewLines..] == ["..."];
      JoinAppend(shown, ["..."], '\n');
      assert Join(parts, '\n') == Join(shown, '\n') + "\n" + "...";
      assert Join(shown, '\n') + "\n" + "..." == Preview(content);
      SplitJoin(parts, '\n');
    }
  }
}
