/**
 * The state `PM2MonitorApp` keeps between events: the services of the last
 * refresh, the filtered list on screen, the table, the direction each column
 * heading sorts in next, and the font size. The event handlers are methods;
 * widgets other than the table are left out.
 */
module Monitor {
  import opened Py
  import opened Collectors
  import opened Table
  import opened Sorting
  import Settings
  import Session

  // ------------------------------------------------------------ the connection test

  /**
   * The test `initialize_application` and `save_and_connect` make after
   * building the SSH wrapper: `ssh_client.client is None`.
   */
  predicate ConnectionFailedAsWritten(c: Session.Client)
  {
    c.Absent?
  }

  /**
   * `connect` assigns a fresh client before trying to connect and catches
   * every exception, so the test never fires: a refused connection (no
   * transport) passes it, and the first command then has to reconnect.
   */
  lemma FailureUnnoticed(first: Session.Transport, command: string, connect: nat -> Session.Transport, exec: nat -> Session.Reply)
    requires first != Session.Active
    ensures !ConnectionFailedAsWritten(Session.Present(first))
    ensures var t := Session.Execute(Session.Present(first), command, connect, exec);
      t.runs >= 1 ==> t.connects >= 1
  {
  }

  /** The test as intended: the connection just made cannot run a command. */
  predicate ConnectionFailed(c: Session.Client)
  {
    c != Session.Present(Session.Active)
  }

  /**
   * The intended test says exactly whether commands run on the connection the
   * wrapper holds: when it passes, the next command runs at once and, if
   * accepted, without reconnecting; when it fails, nothing runs before a
   * reconnect.
   */
  lemma ConnectionFailedMeans(c: Session.Client, command: string, connect: nat -> Session.Transport, exec: nat -> Session.Reply)
    ensures !ConnectionFailed(c) ==>
      var t := Session.Execute(c, command, connect, exec);
      t.runs >= 1 && (Session.Accepted(command, exec(0)) ==> t.connects == 0 && t.output == Some(exec(0).stdout))
    ensures ConnectionFailed(c) ==>
      var t := Session.Execute(c, command, connect, exec);
      t.runs >= 1 ==> t.connects >= 1
  {
  }

  class MonitorApp {
    var allServices: seq<Service>
    var filtered: seq<Service>
    const tree: Treeview
    /** The `reverse` each heading passes on its next click; a heading not clicked yet passes False. */
    var headingReverse: map<Column, bool>
    var fontSize: int
    const settings: Settings.ConfigHandler
    var initialized: bool

    ghost predicate Valid()
      reads this, tree
    {
      tree.Valid()
    }

    /**
     * The state after `__init__`: empty lists and table, and the font size
     * the preferences hold (the stored `font_size`, else 12).
     */
    constructor (settings: Settings.ConfigHandler, fontSize: int)
      requires settings.GetPreferences().fontSize == SInt(fontSize)
      ensures Valid() && fresh(tree)
      ensures SInt(this.fontSize) == settings.GetPreferences().fontSize
      ensures allServices == [] && filtered == [] && tree.rows == [] && headingReverse == map[]
      ensures this.fontSize == fontSize && this.settings == settings && !initialized
    {
      allServices := [];
      filtered := [];
      tree := new Treeview();
      headingReverse := map[];
      this.fontSize := fontSize;
      this.settings := settings;
      initialized := false;
    }

    /** `initialize_application` with the intended connection test; the UI set-up is left out. */
    method InitializeApplication(session: Session.SshSession)
      modifies this
      ensures initialized == !ConnectionFailed(session.client)
      ensures allServices == old(allServices) && filtered == old(filtered) && headingReverse == old(headingReverse)
      ensures fontSize == old(fontSize)
    {
      initialized := !ConnectionFailed(session.client);
    }

    function NextReverse(col: Column): bool
      reads this
    {
      if col in headingReverse then headingReverse[col] else false
    }

    /**
     * `filter_services`: the filtered list and the table follow the query.
     * A name that is not a string raises AttributeError before anything
     * changes (`ok` is false).
     */
    method FilterServices(query: string, placeholder: string) returns (ok: bool)
      requires Valid()
      modifies this, tree
      ensures Valid()
      ensures var r := Table.FilterServices(old(allServices), query, placeholder);
        && ok == r.Some?
        && (ok ==> filtered == r.value && tree.rows == AfterUpdate(old(tree.rows), r.value))
        && (!ok ==> filtered == old(filtered) && tree.rows == old(tree.rows))
      ensures allServices == old(allServices) && headingReverse == old(headingReverse) && fontSize == old(fontSize)
    {
      var r := Table.FilterServices(allServices, query, placeholder);
      if r.None? {
        return false;
      }
      filtered := r.value;
      UpdateTreeview(tree, filtered);
      ok := true;
    }

    /** `fetch_and_display` once `get_pm2_services` returned a list: store it and filter it. */
    method ShowServices(services: seq<Service>, query: string, placeholder: string) returns (ok: bool)
      requires Valid()
      modifies this, tree
      ensures Valid()
      ensures allServices == services
      ensures var r := Table.FilterServices(services, query, placeholder);
        && ok == r.Some?
        && (ok ==> filtered == r.value && tree.rows == AfterUpdate(old(tree.rows), r.value))
        && (!ok ==> filtered == old(filtered) && tree.rows == old(tree.rows))
      ensures headingReverse == old(headingReverse) && fontSize == old(fontSize)
    {
      allServices := services;
      ok := FilterServices(query, placeholder);
    }

    /**
     * `sort_column`: on success the filtered list is the sorted one, the table
     * is reconciled against it and the heading's next click sorts the other
     * way. A key `int()` cannot read raises, is reported, and nothing changes.
     * `Sorting.SortKeepsScreen` shows that rows already on screen do not move.
     */
    method SortColumn(col: Column, reverse: bool) returns (ok: bool)
      requires Valid()
      modifies this, tree
      ensures Valid()
      ensures var r := SortServices(col, reverse, old(filtered));
        && ok == r.Some?
        && (ok ==> filtered == r.value && tree.rows == AfterUpdate(old(tree.rows), r.value)
                   && headingReverse == old(headingReverse)[col := !reverse])
        && (!ok ==> filtered == old(filtered) && tree.rows == old(tree.rows) && headingReverse == old(headingReverse))
      ensures allServices == old(allServices) && fontSize == old(fontSize)
    {
      var r := SortServices(col, reverse, filtered);
      if r.None? {
        return false;
      }
      filtered := r.value;
      UpdateTreeview(tree, filtered);
      headingReverse := headingReverse[col := !reverse];
      ok := true;
    }

    /** A click on a column heading: sort in the direction the heading holds, which then flips. */
    method ClickHeading(col: Column) returns (ok: bool)
      requires Valid()
      modifies this, tree
      ensures Valid()
      ensures ok == SortServices(col, old(NextReverse(col)), old(filtered)).Some?
      ensures ok ==> headingReverse == old(headingReverse)[col := !old(NextReverse(col))]
      ensures !ok ==> headingReverse == old(headingReverse)
      ensures var r := SortServices(col, old(NextReverse(col)), old(filtered));
        && (ok ==> filtered == r.value && tree.rows == AfterUpdate(old(tree.rows), r.value))
        && (!ok ==> filtered == old(filtered) && tree.rows == old(tree.rows))
      ensures allServices == old(allServices) && fontSize == old(fontSize)
    {
      ok := SortColumn(col, NextReverse(col));
    }

    /** `zoom_in`: one point larger below 20, stored in the configuration; nothing at 20 or above. */
    method ZoomIn()
      modifies this, settings
      ensures fontSize == Settings.ZoomedIn(old(fontSize))
      ensures old(fontSize) < Settings.MaxFontSize ==> settings.config == Settings.WithFontSize(old(settings.config), fontSize)
      ensures old(fontSize) >= Settings.MaxFontSize ==> settings.config == old(settings.config)
      ensures allServices == old(allServices) && filtered == old(filtered) && headingReverse == old(headingReverse)
    {
      if fontSize < Settings.MaxFontSize {
        fontSize := fontSize + 1;
        settings.SetFontSize(fontSize);
      }
    }

    /** `zoom_out`: one point smaller above 8, stored in the configuration; nothing at 8 or below. */
    method ZoomOut()
      modifies this, settings
      ensures fontSize == Settings.ZoomedOut(old(fontSize))
      ensures old(fontSize) > Settings.MinFontSize ==> settings.config == Settings.WithFontSize(old(settings.config), fontSize)
      ensures old(fontSize) <= Settings.MinFontSize ==> settings.config == old(settings.config)
      ensures allServices == old(allServices) && filtered == old(filtered) && headingReverse == old(headingReverse)
    {
      if fontSize > Settings.MinFontSize {
        fontSize := fontSize - 1;
        settings.SetFontSize(fontSize);
      }
    }

    /** `reset_zoom`: back to 12, stored in the configuration. */
    method ResetZoom()
      modifies this, settings
      ensures fontSize == Settings.DefaultFontSize
      ensures settings.config == Settings.WithFontSize(old(settings.config), Settings.DefaultFontSize)
      ensures allServices == old(allServices) && filtered == old(filtered) && headingReverse == old(headingReverse)
    {
      fontSize := Settings.DefaultFontSize;
      settings.SetFontSize(fontSize);
    }
  }
}
