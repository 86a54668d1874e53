/** `generate_agentic_data_entry` (actionPredictor/agentic_dataset_generator.py):
    one training row made of a workflow's action at a chosen position and the
    up-to-three actions before it, left-padded with `None` to exactly three.
    The three random draws (`random.choice` of a workflow and of a page,
    `random.randint` of the position) are parameters. */
module DatasetGenerator {
  import opened Optional

  /** `VALID_ACTIONS`. */
  function ValidActions(): seq<string>
  {
    ["open_editor", "add_service", "close_editor", "view_last_invoice", "list_services",
     "view_current_invoice", "copy_previous_data", "list_customers", "add_customer",
     "edit_customer", "update_tax"]
  }

  /** `PAGES`. */
  function Pages(): seq<string>
  {
    ["select_service", "select_customer"]
  }

  /** `REALISTIC_WORKFLOWS`. */
  function RealisticWorkflows(): seq<seq<string>>
  {
    [ ["open_editor", "list_services", "add_service", "add_customer", "add_customer", "update_tax", "view_current_invoice", "close_editor"],
      ["open_editor", "list_services", "view_last_invoice", "edit_customer", "copy_previous_data", "view_current_invoice", "close_editor"],
      ["open_editor", "list_services", "add_service", "add_customer", "edit_customer", "update_tax", "view_current_invoice", "close_editor"],
      ["open_editor", "list_services", "add_service", "copy_previous_data", "update_tax", "close_editor"],
      ["open_editor", "list_services", "view_last_invoice", "view_current_invoice", "close_editor"],
      ["open_editor", "add_service", "edit_customer", "close_editor"],
      ["open_editor", "view_last_invoice", "update_tax", "close_editor"],
      ["open_editor", "list_services", "add_service", "list_customers", "edit_customer", "add_customer", "copy_previous_data", "view_current_invoice", "close_editor"] ]
  }

  /** One dataset row; `None` is JSON `null`. */
  datatype Entry = Entry(currentPage: string,
                         lastAction1: Option<string>, lastAction2: Option<string>, lastAction3: Option<string>,
                         action: string)

  /** `workflow[max(0, index - 3):index]`. */
  function History(workflow: seq<string>, index: nat): seq<string>
    requires index <= |workflow|
  {
    workflow[(if index >= 3 then index - 3 else 0)..index]
  }

  /** `[None] * (3 - len(history)) + history`. */
  function Padded(history: seq<string>): seq<Option<string>>
  {
    seq(if |history| < 3 then 3 - |history| else 0, _ => None)
      + seq(|history|, i requires 0 <= i < |history| => Some(history[i]))
  }

  /** The row for the draws: workflow number `w`, position `index` (drawn by
      `randint(1, len(workflow) - 1)`) and page number `p`. */
  function GenerateEntry(w: nat, index: nat, p: nat): Entry
    requires w < |RealisticWorkflows()| && p < |Pages()|
    requires 1 <= index <= |RealisticWorkflows()[w]| - 1
  {
    var workflow := RealisticWorkflows()[w];
    var padded := Padded(History(workflow, index));
    HistoryLength(workflow, index);
    Entry(Pages()[p], padded[0], padded[1], padded[2], workflow[index])
  }

  /** The last at most three elements of a sequence: the independent
      definition of the history window. */
  function LastThree<T>(s: seq<T>): seq<T>
  {
    if |s| <= 3 then s else s[|s| - 3..]
  }

  lemma HistoryLength(workflow: seq<string>, index: nat)
    requires index <= |workflow|
    ensures |Padded(History(workflow, index))| == 3
  {
  }

  /** Every workflow has at least two actions, so the position range
      `[1, len(workflow) - 1]` is never empty. */
  lemma WorkflowsLongEnough()
    ensures forall w :: 0 <= w < |RealisticWorkflows()| ==> |RealisticWorkflows()[w]| >= 2
  {
  }

  /** Every action that occurs in a workflow is a valid action. */
  lemma WorkflowActionsValid()
    ensures forall w, i :: 0 <= w < |RealisticWorkflows()| && 0 <= i < |RealisticWorkflows()[w]| ==>
      RealisticWorkflows()[w][i] in ValidActions()
  {
    var ws := RealisticWorkflows();
    var valid := ValidActions();
    forall w, i | 0 <= w < |ws| && 0 <= i < |ws[w]| ensures ws[w][i] in valid {
      assert ws[w][i] in multiset(valid) by {
        assert w == 0 || w == 1 || w == 2 || w == 3 || w == 4 || w == 5 || w == 6 || w == 7;
      }
    }
  }

  /** The history is the last at most three actions before the chosen one,
      in workflow order, and it is never empty. */
  lemma HistoryIsWindow(workflow: seq<string>, index: nat)
    requires 1 <= index <= |workflow|
    ensures History(workflow, index) == LastThree(workflow[..index])
    ensures 1 <= |History(workflow, index)| <= 3
  {
  }

  /** The padded history has exactly `3 - min(3, index)` leading `None`s,
      followed by the history's actions. */
  lemma PaddedShape(workflow: seq<string>, index: nat)
    requires index <= |workflow|
    ensures var h := History(workflow, index); var padded := Padded(h);
      var pad := 3 - (if index < 3 then index else 3);
      && |padded| == 3
      && (forall i :: 0 <= i < pad ==> padded[i] == None)
      && (forall i :: pad <= i < 3 ==> padded[i] == Some(workflow[index - 3 + i]))
  {
  }

  /** The row's fields: the page is one of `PAGES`, the action is
      `workflow[index]` and a valid action, the most recent history slot is
      the immediate predecessor (never `None`), and the three slots are the
      padded window of the actions before `index`. */
  lemma EntryFields(w: nat, index: nat, p: nat)
    requires w < |RealisticWorkflows()| && p < |Pages()|
    requires 1 <= index <= |RealisticWorkflows()[w]| - 1
    ensures var e := GenerateEntry(w, index, p); var workflow := RealisticWorkflows()[w];
      && e.currentPage in Pages()
      && e.action == workflow[index] && e.action in ValidActions()
      && e.lastAction3 == Some(workflow[index - 1])
      && [e.lastAction1, e.lastAction2, e.lastAction3] == Padded(LastThree(workflow[..index]))
  {
    var workflow := RealisticWorkflows()[w];
    WorkflowActionsValid();
    HistoryIsWindow(workflow, index);
    PaddedShape(workflow, index);
    var padded := Padded(History(workflow, index));
    assert [padded[0], padded[1], padded[2]] == padded;
  }
}
