/**
 * The one-shot notification: the first time a refreshed file map holds an
 * issue, its message is shown with one button; later refreshes show nothing.
 */
module Notifications {
  import opened Types
  import opened Utility
  import opened IssueMaps

  /**
   * What one shown notification did. The host's answers (whether the tool
   * extension is installed, whether the user pressed the button) are
   * recorded with it.
   */
  datatype Notice = Notice(
    message: string,
    toolInstalled: bool,
    button: string,
    accepted: bool,
    upgradePrompt: Option<string>)

  function ButtonText(toolInstalled: bool): string {
    if toolInstalled then "Upgrade" else "Install extension and upgrade"
  }

  /** The notice shows the target's message and runs the upgrade command with its prompt iff accepted. */
  ghost predicate NoticeFor(n: Notice, target: Issue) {
    && n.message == BuildMessage(target)
    && n.button == ButtonText(n.toolInstalled)
    && n.upgradePrompt == (if n.accepted then Some(BuildFixPrompt(target)) else None)
  }

  class NotificationManager {
    var hasShown: bool
    /** The notifications shown so far in this session. */
    var shown: seq<Notice>

    /** The latch: a notice has been shown iff it is set, so at most one per session. */
    ghost predicate Valid()
      reads this
    {
      |shown| == if hasShown then 1 else 0
    }

    constructor ()
      ensures Valid() && !hasShown && shown == []
    {
      hasShown := false;
      shown := [];
    }

    /** The effect of one refresh with `issues` from the state (`shown0`, `log0`). */
    ghost predicate RefreshedFrom(shown0: bool, log0: seq<Notice>, issues: FileIssues)
      reads this
    {
      if |issues| == 0 || shown0 then
        hasShown == shown0 && shown == log0
      else
        && hasShown
        && |shown| == |log0| + 1 && shown[..|log0|] == log0
        && NoticeFor(shown[|log0|], Values(issues)[0])
    }

    /** Once the latch was set in the state (`shown0`, `log0`), it stays set and nothing more is shown. */
    ghost predicate LatchedFrom(shown0: bool, log0: seq<Notice>)
      reads this
    {
      shown0 ==> hasShown && shown == log0
    }

    method Refresh(issues: FileIssues)
      requires Valid()
      modifies this
      ensures Valid()
      ensures RefreshedFrom(old(hasShown), old(shown), issues)
    {
      var values := Values(issues);
      if |values| == 0 {
        return;
      }
      var targetIssue := values[0];
      if hasShown {
        return;
      }
      // The host's answers are not under the model's control.
      var toolInstalled: bool :| true;
      var buttonText := ButtonText(toolInstalled);
      var accepted: bool :| true;
      hasShown := true;
      var prompt := if accepted then Some(BuildFixPrompt(targetIssue)) else None;
      shown := shown + [Notice(BuildMessage(targetIssue), toolInstalled, buttonText, accepted, prompt)];
    }
  }
}
