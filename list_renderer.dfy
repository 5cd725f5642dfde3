/** The custom Markdown renderer for lists (`renderer.listitem`,
    `renderer.list`): GitHub task items get a disabled check box, and a list
    that holds one is marked with a class. */
module ListRenderer {
  import opened Text

  const TaskItemClass: string := "task-list-item"
  const TaskItemOpen: string := "<li class=\"task-list-item\">"
  const CheckboxOpen: string := "<input type=\"checkbox\" "
  const CheckboxClose: string := " disabled>"

  /** `<input type="checkbox" ${checked ? 'checked' : ''} disabled>`. */
  function Checkbox(checked: bool): string {
    CheckboxOpen + (if checked then "checked" else "") + CheckboxClose
  }

  /** `renderer.listitem(text, task, checked)`. */
  function ListItem(text: string, task: bool, checked: bool): string {
    if task then TaskItemOpen + Checkbox(checked) + " <span>" + text + "</span></li>"
    else "<li>" + text + "</li>"
  }

  /** The `start` attribute: only for an ordered list not starting at 1. */
  function StartAttr(ordered: bool, start: nat): string {
    if ordered && start != 1 then " start=\"" + NatToString(start) + "\"" else ""
  }

  /** The class attribute: only when the body holds a task item. */
  function TaskClass(body: string): string {
    if Contains(body, TaskItemClass) then " class=\"contains-task-list\"" else ""
  }

  function ListTag(ordered: bool): string {
    if ordered then "ol" else "ul"
  }

  /** `<${type}${startAttr}`, the opening tag up to the class. */
  function OpenTag(ordered: bool, start: nat): string {
    "<" + ListTag(ordered) + StartAttr(ordered, start)
  }

  function CloseTag(ordered: bool): string {
    "</" + ListTag(ordered) + ">"
  }

  /** `renderer.list(body, ordered, start)`. */
  function List(body: string, ordered: bool, start: nat): string {
    OpenTag(ordered, start) + TaskClass(body) + ">" + body + CloseTag(ordered)
  }

  lemma {:induction false} TaskItemOpenNamesClass()
    ensures Contains(TaskItemOpen, TaskItemClass)
  {
    assert OccursAt(TaskItemOpen, TaskItemClass, 11);
  }

  /** Regrouping a check box, with its optional word, inside a task item. */
  lemma {:induction false} RegroupItem(open: string, cbOpen: string, word: string, cbClose: string, rest: string)
    ensures open + (cbOpen + word + cbClose) + rest == (open + cbOpen) + word + (cbClose + rest)
  {
  }

  /** A task item and a plain item both show their text; a task item is
      marked as one, and its check box differs only by the `checked` word. */
  lemma {:induction false} ListItemShape(text: string, checked: bool)
    ensures Contains(ListItem(text, true, checked), TaskItemClass)
    ensures Contains(ListItem(text, true, checked), text) && Contains(ListItem(text, false, checked), text)
    ensures var pre := TaskItemOpen + CheckboxOpen;
      var post := CheckboxClose + " <span>" + text + "</span></li>";
      ListItem(text, true, true) == pre + "checked" + post && ListItem(text, true, false) == pre + post
  {
    var head := TaskItemOpen + Checkbox(checked) + " <span>";
    TaskItemOpenNamesClass();
    ContainsAppend(TaskItemOpen, Checkbox(checked), TaskItemClass);
    ContainsAppend(TaskItemOpen + Checkbox(checked), " <span>", TaskItemClass);
    ContainsAppend(head, text, TaskItemClass);
    ContainsAppend(head + text, "</span></li>", TaskItemClass);
    ContainsSelf(text);
    ContainsAppend(head, text, text);
    ContainsAppend(head + text, "</span></li>", text);
    ContainsAppend("<li>", text, text);
    ContainsAppend("<li>" + text, "</li>", text);
    var rest := " <span>" + text + "</span></li>";
    RegroupItem(TaskItemOpen, CheckboxOpen, "checked", CheckboxClose, rest);
    RegroupItem(TaskItemOpen, CheckboxOpen, "", CheckboxClose, rest);
    assert CheckboxOpen + "" == CheckboxOpen;
    assert (TaskItemOpen + CheckboxOpen) + "" == TaskItemOpen + CheckboxOpen;
    ItemAssoc(TaskItemOpen, Checkbox(true), text);
    ItemAssoc(TaskItemOpen, Checkbox(false), text);
    assert CheckboxClose + rest == CheckboxClose + " <span>" + text + "</span></li>";
  }

  lemma {:induction false} ItemAssoc(open: string, box: string, text: string)
    ensures open + box + " <span>" + text + "</span></li>" == open + box + (" <span>" + text + "</span></li>")
  {
  }

  /** The pieces of a list: the opening tag is a prefix, the character after
      it starts the class or closes the tag, and the body is inside. */
  lemma {:induction false} ListPieces(open: string, cls: string, body: string, close: string)
    ensures var r := open + cls + ">" + body + close;
      && HasPrefix(r, open)
      && r[|open|] == (if cls == [] then '>' else cls[0])
      && Contains(r, body)
  {
    var r := open + cls + ">" + body + close;
    assert r[..|open|] == open;
    ContainsSelf(body);
    ContainsAppend(open + cls + ">", body, body);
    ContainsAppend(open + cls + ">" + body, close, body);
  }

  /** Whatever the opening tag contains, the whole list contains. */
  lemma {:induction false} ListKeepsOpenTag(open: string, cls: string, body: string, close: string, attr: string)
    requires Contains(open, attr)
    ensures Contains(open + cls + ">" + body + close, attr)
  {
    ContainsAppend(open, cls, attr);
    ContainsAppend(open + cls, ">", attr);
    ContainsAppend(open + cls + ">", body, attr);
    ContainsAppend(open + cls + ">" + body, close, attr);
  }

  /** The list opens with its tag, then the `start` attribute exactly when
      the list is ordered and does not start at 1, then the `contains-task-list` class
      exactly when the body holds a task item; the body follows unchanged.
      The `start` attribute carries the start number in decimal. */
  lemma {:induction false} ListShape(body: string, ordered: bool, start: nat)
    ensures var r := List(body, ordered, start);
      var open := OpenTag(ordered, start);
      && HasPrefix(r, open)
      && (|open| > 3 <==> ordered && start != 1)
      && (r[|open|] == ' ' <==> Contains(body, TaskItemClass))
      && Contains(r, body)
      && (ordered && start != 1 ==> Contains(r, " start=\"" + NatToString(start) + "\""))
  {
    ListPieces(OpenTag(ordered, start), TaskClass(body), body, CloseTag(ordered));
    if ordered && start != 1 {
      var attr := StartAttr(ordered, start);
      ContainsSelf(attr);
      ContainsAppend("<" + ListTag(ordered), attr, attr);
      ListKeepsOpenTag(OpenTag(ordered, start), TaskClass(body), body, CloseTag(ordered), attr);
    }
  }

  /** A list holding a task item anywhere in its body gets the `contains-task-list` class. */
  lemma {:induction false} TaskItemMarksList(pre: string, text: string, checked: bool, post: string)
    ensures TaskClass(pre + ListItem(text, true, checked) + post) == " class=\"contains-task-list\""
  {
    ListItemShape(text, checked);
    ContainsWithin(pre, ListItem(text, true, checked), post, TaskItemClass);
  }
}
