/** The redirections of a builtin in a script of programs/sh.c: from the text to the descriptor table
    after it. */
module ShellBuiltin {
  import opened Options
  import opened ShellLexer
  import opened ShellExpand
  import opened ShellSyntax
  import opened ShellDup
  import Redirect = ShellRedirect

  /** The command is one of those the tree is made of. */
  predicate HasCommand(a: Ast, args: seq<string>, redirs: seq<Redir>) {
    match a
    case Nothing => false
    case Simple(xs, rs) => xs == args && rs == redirs
    case Binary(_, l, r) => HasCommand(l, args, redirs) || HasCommand(r, args, redirs)
    case Group(_, b) => HasCommand(b, args, redirs)
    case If(c, t, e) => HasCommand(c, args, redirs) || HasCommand(t, args, redirs) || HasCommand(e, args, redirs)
    case While(c, b) => HasCommand(c, args, redirs) || HasCommand(b, args, redirs)
    case For(_, _, b) => HasCommand(b, args, redirs)
  }

  lemma {:induction false} CommandsAreDupFree(a: Ast, args: seq<string>, redirs: seq<Redir>)
    requires DupFree(a) && HasCommand(a, args, redirs)
    ensures NoDups(redirs)
  {
    match a
    case Simple(_, _) =>
    case Binary(_, l, r) =>
      if HasCommand(l, args, redirs) {
        CommandsAreDupFree(l, args, redirs);
      } else {
        CommandsAreDupFree(r, args, redirs);
      }
    case Group(_, b) => CommandsAreDupFree(b, args, redirs);
    case If(c, t, e) =>
      if HasCommand(c, args, redirs) {
        CommandsAreDupFree(c, args, redirs);
      } else if HasCommand(t, args, redirs) {
        CommandsAreDupFree(t, args, redirs);
      } else {
        CommandsAreDupFree(e, args, redirs);
      }
    case While(c, b) =>
      if HasCommand(c, args, redirs) {
        CommandsAreDupFree(c, args, redirs);
      } else {
        CommandsAreDupFree(b, args, redirs);
      }
    case For(_, _, b) => CommandsAreDupFree(b, args, redirs);
  }

  /** The parsed redirections as they take effect, `answers` being what open() answers. */
  function Effective(redirs: seq<Redir>, answers: seq<Option<int>>): (rs: seq<Redirect.Redirection>)
    requires |answers| == |redirs|
    ensures |rs| == |redirs|
  {
    seq(|redirs|, i requires 0 <= i < |redirs| =>
      Redirect.Redirection(redirs[i].fd,
        if redirs[i].dup.Some? then Redirect.FromFd(redirs[i].dup.value)
        else if answers[i].None? then Redirect.Missing
        else Redirect.FromFile(answers[i].value)))
  }

  /** For every command of every script, however far the tokenizer gets with it, whose files can be
      opened: the descriptor table comes back after the builtin exactly if no redirection leaves a
      trace. */
  lemma BuiltinsOfScripts(env: Env, text: string, n: nat, args: seq<string>, redirs: seq<Redir>,
                          answers: seq<Option<int>>, t: Redirect.Files)
    requires HasCommand(ParseList(env, Reads(text, n), 0).ast, args, redirs) && |answers| == |redirs|
    requires forall i :: 0 <= i < |answers| ==> answers[i].Some? && answers[i].value !in t.Values
    ensures var rs := Effective(redirs, answers);
            && Redirect.AllOpenable(rs)
            && (Redirect.Around(t, rs) == t <==> Redirect.AllTraceless(t, rs))
  {
    hide ParseList, Redirect.Around, Redirect.AllTraceless;
    NoScriptDuplicates(env, text, n);
    CommandsAreDupFree(ParseList(env, Reads(text, n), 0).ast, args, redirs);
    assert forall i :: 0 <= i < |redirs| ==> redirs[i] in redirs;
    Redirect.RestoredIffTraceless(t, Effective(redirs, answers));
  }
}
