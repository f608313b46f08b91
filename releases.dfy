/** What the release and snapshot reports decide: the new state of the
    release, the notifications, and the status and message handed to the
    task updater. */
module Releases {
  import opened Common
  import opened Entities

  /** The decision of a release report. `newState` is None when the release
      record is left alone. */
  datatype ReleaseOutcome = ReleaseOutcome(
    newState: Option<string>, notices: seq<Notification>, status: Option<string>, message: Option<string>)

  /** A failure notice, unless the failure is an abort. */
  function ReleaseFailureNotices(text: string): (ns: seq<Notification>)
    ensures text == "Task aborted" <==> ns == []
    ensures ns != [] ==> ns == [Notice(Error, text, None)]
  {
    if text != "Task aborted" then [Notice(Error, text, None)] else []
  }

  /** The generic failure texts of the two Red Hat checks (the licenses one
      keeps its trailing space). */
  const CredentialsFailedText := "Failed to check Red Hat credentials"
  const LicensesFailedText := "Failed to check Red Hat licenses "

  /** The failure text of a Red Hat check: the check's generic text in place
      of an unknown error, the error text itself otherwise. */
  function CheckErrorText(e: string, generic: string): (m: string)
    ensures Contains(e, "Unknown error") ==> m == generic
    ensures !Contains(e, "Unknown error") ==> m == e
  {
    if Contains(e, "Unknown error") then generic else e
  }

  /** `check_redhat_credentials_resp` on an existing release: an error text
      fails the task and the release and is announced unless it is an
      abort; without one, status and text pass through and nothing else
      happens. */
  function CredentialsOutcome(error: Option<string>, status: Option<string>): (o: ReleaseOutcome)
    ensures Truthy(error) <==> o.newState == Some("error")
    ensures Truthy(error) ==> o.status == Some("error") && o.message == Some(CheckErrorText(error.value, CredentialsFailedText))
    ensures !Truthy(error) ==> o.newState.None? && o.notices == [] && o.status == status && o.message == error
    ensures Truthy(error) ==> o.notices == ReleaseFailureNotices(o.message.value)
  {
    if Truthy(error) then
      var text := CheckErrorText(error.value, CredentialsFailedText);
      ReleaseOutcome(Some("error"), ReleaseFailureNotices(text), Some("error"), Some(text))
    else ReleaseOutcome(None, [], status, error)
  }

  /** `redhat_check_licenses_resp` on an existing release: as the
      credentials check, with its own generic text, and the report's `msg`
      announced as an error in addition when it is not empty. */
  function LicensesOutcome(error: Option<string>, status: Option<string>, msg: Option<string>): (o: ReleaseOutcome)
    ensures Truthy(error) <==> o.newState == Some("error")
    ensures Truthy(error) ==> o.status == Some("error") && o.message == Some(CheckErrorText(error.value, LicensesFailedText))
    ensures !Truthy(error) ==> o.newState.None? && o.status == status && o.message == error
    ensures var extra := if Truthy(msg) then [Notice(Error, msg.value, None)] else [];
            o.notices == (if Truthy(error) then ReleaseFailureNotices(o.message.value) else []) + extra
  {
    var extra := if Truthy(msg) then [Notice(Error, msg.value, None)] else [];
    if Truthy(error) then
      var text := CheckErrorText(error.value, LicensesFailedText);
      ReleaseOutcome(Some("error"), ReleaseFailureNotices(text) + extra, Some("error"), Some(text))
    else ReleaseOutcome(None, extra, status, error)
  }

  function DownloadFailedText(name: string): string {
    name + " download and preparation has failed."
  }

  /** `download_release_resp` on an existing release: any error text is
      replaced by the release's own failure text, and the release fails; a
      report of 100% and ready makes the release available and announces
      it; any other report only passes status and progress on. */
  function DownloadOutcome(name: string, error: Option<string>, status: Option<string>, progress: Option<int>): (o: ReleaseOutcome)
    ensures Truthy(error) ==>
              o.newState == Some("error") && o.status == Some("error") && o.message == Some(DownloadFailedText(name))
    ensures !Truthy(error) && progress == Some(100) && status == Some("ready") ==>
              o.newState == Some("available") && o.notices == [Notice(Done, "Successfully downloaded " + name, None)]
    ensures o.newState.None? <==> !Truthy(error) && !(progress == Some(100) && status == Some("ready"))
    ensures !Truthy(error) ==> o.status == status && o.message == error
  {
    if Truthy(error) then
      var text := DownloadFailedText(name);
      ReleaseOutcome(Some("error"), ReleaseFailureNotices(text), Some("error"), Some(text))
    else if progress == Some(100) && status == Some("ready") then
      ReleaseOutcome(Some("available"), [Notice(Done, "Successfully downloaded " + name, None)], status, error)
    else ReleaseOutcome(None, [], status, error)
  }

  /** The download failure text is never "Task aborted", so the abort test
      of `_download_release_error` never holds on this path: a failed
      download is always announced. */
  lemma DownloadFailureAlwaysAnnounced(name: string, error: Option<string>, status: Option<string>, progress: Option<int>)
    requires Truthy(error)
    ensures DownloadOutcome(name, error, status, progress).notices == [Notice(Error, DownloadFailedText(name), None)]
  {
    assert |DownloadFailedText(name)| > |"Task aborted"|;
  }

  /** The arguments of the single updater call a snapshot report makes. */
  datatype DumpUpdate = DumpUpdate(status: string, progress: Option<int>, message: Option<string>)

  /** A snapshot report's notifications and updater call. */
  datatype DumpOutcome = DumpOutcome(notices: seq<Notification>, update: Option<DumpUpdate>)

  /** `dump_environment_resp`'s decision: an error is announced and ends the
      task at 100%; ready announces the snapshot and points the task at the
      file under /dump/; any other status does nothing. */
  function DumpOutcomeOf(status: Option<string>, progress: Option<int>, error: Option<string>, msg: Option<string>): (o: DumpOutcome)
    requires status == Some("ready") ==> msg.Some?
    ensures status == Some("error") ==>
              o.notices == [Notification(Error, error, None, None, None)]
              && o.update == Some(DumpUpdate("error", Some(100), error))
    ensures status == Some("ready") ==>
              && |o.notices| == 1 && o.notices[0].topic == Done
              && o.update.Some? && o.update.value.status == "ready" && o.update.value.progress == progress
              && o.update.value.message.Some?
              && "/dump/" <= o.update.value.message.value
              && '/' !in o.update.value.message.value[6..]
    ensures status != Some("error") && status != Some("ready") ==> o.notices == [] && o.update.None?
  {
    if status == Some("error") then
      DumpOutcome([Notification(Error, error, None, None, None)], Some(DumpUpdate("error", Some(100), error)))
    else if status == Some("ready") then
      DumpOutcome([Notice(Done, "Snapshot is ready. Visit Support page to download", None)],
                  Some(DumpUpdate("ready", progress, Some("/dump/" + Basename(msg.value)))))
    else DumpOutcome([], None)
  }

  /** The snapshot path handed to the task is /dump/ followed by the last
      component of the path the report gave. */
  lemma DumpPathIsBasename(progress: Option<int>, error: Option<string>, path: string)
    ensures var o := DumpOutcomeOf(Some("ready"), progress, error, Some(path));
            var file := o.update.value.message.value[6..];
            && |file| <= |path| && path[|path| - |file|..] == file
            && (|file| < |path| ==> path[|path| - |file| - 1] == '/')
  {
    var o := DumpOutcomeOf(Some("ready"), progress, error, Some(path));
    assert o.update.value.message.value[6..] == Basename(path);
  }
}
