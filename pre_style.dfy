/** The style rule applied to every `<pre>` element of the rendered HTML. */
module PreStyle {
  import opened Wrappers
  import opened PyStr

  /** The declarations every `<pre>` element ends up with. */
  const PreDeclarations := "background-color: #e8e8e8; padding: 10px;"

  /**
   * The new `style` attribute of a `<pre>` element whose old one is `style` (None when
   * absent): the old declarations with trailing whitespace dropped, closed by `;` when
   * they are not empty and not already closed, then the fixed declarations.
   */
  method MergePreStyle(style: Option<string>) returns (s: string)
    ensures |s| >= |PreDeclarations| && s[|s| - |PreDeclarations|..] == PreDeclarations
    ensures var kept := RStrip(if style.Some? then style.value else "");
      var head := s[..|s| - |PreDeclarations|];
      (head == [] <==> kept == [])
      && (head != [] ==> head[|head| - 1] == ';')
      && (head == kept || (head == kept + ";" && kept[|kept| - 1] != ';'))
  {
    s := if style.Some? then style.value else "";
    s := RStrip(s);
    if s != [] && s[|s| - 1] != ';' {
      s := s + ";";
    }
    s := s + PreDeclarations;
  }
}
