# WeChat chat-history exporter: configuration, contact list and report text

This project models three parts of the desktop WeChat chat-history exporter in Dafny and proves properties about them.

- **Configuration (`Config`, config.py).** This covers:
  - the emptiness test and the recursive dictionary merge used when the saved configuration is loaded;
  - the three bounded history lists the application keeps: recent contacts (at most ten, most recent first), recent databases (at most five, keyed by path) and the per-account decryption history.

  The class `AppConfig` holds the three list entries of the in-memory configuration. Its constructor takes them as `load_config` delivered them, and the three `add_*` methods update them in place. The other configuration entries are read from the loaded map.
- **Export window (`ExportGui`, wechat_export_gui.py).** This covers:
  - the case-insensitive contact search;
  - the grouping of the filtered contacts into four sections: starred, official accounts, group chats, friends;
  - the planning of the list: a title per non-empty section, its first hundred contacts, and a "load more" button holding the rest;
  - the widget loop, and the fifty-at-a-time "load more" batches;
  - the name label and placeholder avatar of a contact row;
  - the checks and the reduction of the message-type check boxes when an export starts.

  The panel state (all contacts and the filtered view) is the class `ContactPanel`. Widgets are values describing what is drawn.
- **Weekly report (`WeeklyReport`, weekly_report_gui.py).** This covers the text handed to the report service: one line `sender: content` per text message (type 1), joined by newlines, or a fixed notice when there is none.

`Wrappers` (Option, Result), `Lists` (slicing, list comprehension, first match, removal of the first occurrence, subsequences) and `Text` (ASCII lower-casing, substring search, decimal rendering) are shared helpers.

## Model

| member | source | states |
|---|---|---|
| Config.IsEmptyExactly | config.py:69-70 | A value is empty exactly when it is `None`, or it is a string, list or dictionary of length zero. Numbers and booleans are never empty. |
| Config.MergeDeep | config.py:72-84 | The merged dictionary has exactly the keys of both inputs. |
| Config.MergeNested | config.py:78-79 | When both sides hold a dictionary under a key, the result holds their recursive merge there. |
| Config.MergeKeepsTarget | config.py:80-83 | A non-empty target value wins over any source value, unless both are dictionaries. |
| Config.MergeFillsFromSource | config.py:80-81 | A non-empty source value fills a key the target lacks or holds empty. |
| Config.MergeIgnoresEmptySource | config.py:82-83 | A missing or empty source value leaves the target value in place. |
| Config.MergeKeepsEmptySourceOnly | config.py:83 | A key only the source has keeps the source value, even when it is empty. |
| Config.MergeNeverEmpties | config.py:72-84 | A merged value is empty only if every side that has the key holds an empty value there. |
| Config.MergeEmptySource | config.py:72-84 | Merging in an empty source gives the target back. |
| Config.MergeEmptyTarget | config.py:72-84 | Merging into an empty target gives the source back. |
| Config.MergeIdempotent | config.py:72-84 | Merging a dictionary with itself gives it back, at every nesting depth. |
| Config.LoadConfigAsWritten | config.py:86-103 | Loading as written yields every default key, with or without a saved file. |
| Config.LoadConfigAsWrittenLosesSavedVersion | config.py:96 | As written, a saved `db_version` of 4 loads as the default 3 (see Findings). |
| Config.LoadConfig | config.py:86-103 | The corrected loading yields every default key. |
| Config.LoadConfigKeepsSaved | config.py:86-103 | With the corrected loading, every non-empty saved value survives the reload. |
| Config.LoadConfigFillsDefaults | config.py:58-67 | With the corrected loading, a key missing or empty in the saved file gets its non-empty default. |
| Config.RecentContactFront | config.py:115-132 | The new contact is first. At most ten entries remain. The rest are the earlier list without its first occurrence of that contact, in their old order, cut to nine. |
| Config.RecentContactsLength | config.py:115-132 | The new length is the old length, plus one if the contact was new, capped at ten. |
| Config.RecentContactsUnique | config.py:115-132 | Starting from a list without duplicates, the list stays duplicate-free and holds the new contact exactly once. |
| Config.RecentDatabaseFront | config.py:134-155 | The new `{path, version}` entry is first. At most five entries remain. The rest are the earlier list without its first entry for that path, in order. |
| Config.WithoutFirstPathDropsOne | config.py:143-146 | Removing the entry found for a path shortens the list by one; with no entry for the path, the list is unchanged. |
| Config.RecentDatabasesUnique | config.py:134-155 | Starting from distinct paths, the paths stay distinct and the new path heads the list, so it is listed exactly once. |
| Config.RemoveFirstFoundEntry | config.py:143-146 | `remove(item)` on the entry the loop found first removes exactly the first entry with that path. |
| Config.DecryptHistoryReplaces | config.py:172-175 | The first record of a known account is replaced where it stands. The length and every other record stay. |
| Config.DecryptHistoryAppends | config.py:177-178 | A record for a new account is appended at the end. |
| Config.DecryptHistoryUnique | config.py:157-180 | Starting from one record per account, there is still one record per account. |
| Config.AppConfig.AddRecentContact | config.py:115-132 | Changes only `recent_contacts`, to the function above. An empty wxid changes nothing. |
| Config.AppConfig.AddRecentDatabase | config.py:134-155 | Changes only `recent_databases`: the search loop, `remove` and the insertion give the function above. An empty path changes nothing. |
| Config.AppConfig.AddDecryptHistory | config.py:157-180 | Changes only `decrypt_history`: an in-place replacement with an early return, or an append. An empty wxid or path changes nothing. |
| ExportGui.MatchingContacts | wechat_export_gui.py:1600-1614 | An empty search keeps all contacts. Otherwise the result is an order-preserving subsequence holding only matching contacts, each matching contact as often as in the full list. |
| ExportGui.MatchingIgnoresCase | wechat_export_gui.py:1602 | Queries that differ only in letter case select the same contacts. |
| ExportGui.BucketStep | wechat_export_gui.py:1254-1262 | One more contact extends exactly the section its kind selects. |
| ExportGui.BucketCount | wechat_export_gui.py:1254-1262 | A section holds a contact as often as the filtered list when the contact belongs there, and never otherwise. |
| ExportGui.BucketsPartition | wechat_export_gui.py:1246-1262 | The four sections partition the filtered contacts (as a multiset and in total size). Each section holds only its kind, in filtered order. |
| ExportGui.GroupContacts | wechat_export_gui.py:1254-1262 | The grouping loop yields, in section order, the four sections defined by the kind test. |
| ExportGui.ContactListInOrder | wechat_export_gui.py:1247-1252 | The items are the sections' items in the order starred, official accounts, group chats, friends. |
| ExportGui.GroupItemsShape | wechat_export_gui.py:1267-1293 | An empty section adds nothing. Otherwise its title comes first and carries its size. Then come at most a hundred of its first contacts, one item per position, in order. Last comes one load-more item, exactly when it has more than a hundred. That item holds the rest, and the shown and held contacts together are the section. |
| ExportGui.TitlesOfSections | wechat_export_gui.py:1268-1273 | A title appears for exactly the non-empty sections, in order, each with its section's size. |
| ExportGui.SectionItems | wechat_export_gui.py:1266-1293 | The item loop for one section builds exactly that section's items. |
| ExportGui.PlanContactItems | wechat_export_gui.py:1246-1293 | Grouping then planning yields `items_to_create` for the filtered contacts. |
| ExportGui.DisplayName | wechat_export_gui.py:1370-1373 | The name is "remark (nickname)" with a remark, else the nickname, else 未知. It is never empty. |
| ExportGui.AvatarIconOfGroup | wechat_export_gui.py:1352-1358 | A group chat shows the group icon and a friend the person icon. An official account shows the megaphone unless it is also flagged as a chat room. |
| ExportGui.TitleTextShowsCount | wechat_export_gui.py:1272 | The number in a section title parses back to the section size. |
| ExportGui.CreateWidgets | wechat_export_gui.py:1298-1330 | One widget per planned item, in order. `total_added` is the number of contact items. |
| ExportGui.LoadMoreWidgets | wechat_export_gui.py:1410-1432 | With more than fifty remaining contacts, rows for the first fifty of them in order, then a button holding the rest, labelled with their count. Otherwise, rows for all of them. |
| ExportGui.LoadMoreContacts | wechat_export_gui.py:1410-1432 | The batch loop creates exactly the widgets above. |
| ExportGui.LoadMoreLabelCounts | wechat_export_gui.py:1429 | A new button's label counts the contacts it holds. |
| ExportGui.PressUntilDoneShowsAll | wechat_export_gui.py:1410-1432 | Pressing each newly created load-more button once creates rows for every contact the first button held, in order. |
| ExportGui.SectionFullyReachable | wechat_export_gui.py:1276-1292 | A section's first page, followed by one press of each newly created load-more button, creates rows for the whole section, in order. |
| ExportGui.ContactPanel.LoadContacts | wechat_export_gui.py:1147-1186 | The loaded list is always stored. An empty load redraws nothing and leaves the filtered view as it was. Otherwise every contact is shown and the list is redrawn from the plan. |
| ExportGui.ContactPanel.FilterContacts | wechat_export_gui.py:1600-1614 | The filtered view becomes the matching contacts, and the list is redrawn from it. |
| ExportGui.ContactPanel.UpdateContactsList | wechat_export_gui.py:1222-1335 | The widgets drawn are those of the planned items for the filtered view. An empty view draws nothing. |
| ExportGui.SelectedMessageTypes | wechat_export_gui.py:1669-1676 | "All messages" ticked yields no type filter. Otherwise, the set of ticked types. |
| ExportGui.StartExport | wechat_export_gui.py:1616-1688 | Refuses an empty contact, then a missing database, then an empty output directory. It succeeds exactly when none of these holds (the output directory's creation is assumed to succeed), with the mapped format (HTML when unknown), the reduced types and the time range. |
| WeeklyReport.FormatMessagesForReport | weekly_report_gui.py:455-488 | The loop builds exactly the report text of the messages. |
| WeeklyReport.ReportLinesSnoc | weekly_report_gui.py:467-477 | Each message adds `sender: content` at the end if it has type 1, and nothing otherwise. |
| WeeklyReport.ReportLinesAppend | weekly_report_gui.py:467-477 | The lines of consecutive runs of messages follow each other: order is kept. |
| WeeklyReport.ReportLinesFromTextMessages | weekly_report_gui.py:467-477 | Every line is the line of some text message, and every text message has its line. |
| WeeklyReport.ReportLinesEmpty | weekly_report_gui.py:468-486 | There is no line exactly when no message is a text message. |
| WeeklyReport.ReportTextNotice | weekly_report_gui.py:484-488 | The report is the bare notice exactly when no message is a text message. |
| WeeklyReport.JoinLines | weekly_report_gui.py:488 | A joined text begins with its first line. |
| WeeklyReport.SplitJoin | weekly_report_gui.py:488 | Splitting the joined lines at newlines gives them back when none contains a newline. |
| WeeklyReport.JoinSplit | weekly_report_gui.py:488 | Joining the pieces of a split gives the text back. |
| WeeklyReport.ReportTextLines | weekly_report_gui.py:467-488 | When some message is a text message and no sender or content holds a newline, the report splits into exactly the lines of the text messages, in order. |

## Left out

- File and platform I/O is not modelled: reading and writing the JSON configuration file, the documents folder, the `os.makedirs` of the configuration folder, and the database file's modification time. The modification time is a parameter (`None` when the file is missing, stored as 0).
- The saved configuration's own keys are typed fields, so a malformed file (a list entry of the wrong shape, raising `KeyError` or `TypeError`) is not modelled.
- Aliasing of `DEFAULT_CONFIG`'s lists is not modelled. The shallow `DEFAULT_CONFIG.copy()` shares them. When a saved list is empty, `merge_dicts_deep` also returns the default's own list object (config.py:83, `tv`). The `add_*` functions then mutate `DEFAULT_CONFIG` through the loaded configuration. The model has no aliasing between configurations.
- ExportGui.StartExport: the `os.makedirs` of `start_export` (wechat_export_gui.py:1633) is not modelled. Its failure would stop the export, but the model's success case assumes the directory is created.
- Tk widgets are described by values (label texts, rows, buttons), not drawn. Fonts, hover handlers, `update_idletasks` and avatar-image loading threads are left out.
- ExportGui.LoadMoreContacts: the model gives the widgets one press adds, not the frame's whole widget list. A pressed load-more button is never removed or disabled, so pressing it again adds the same batch a second time. The model does not track buttons pressed more than once.
- ExportGui.LoadMoreContacts: new rows are packed at the end of the contact frame, below every later section, not under their own section's title. The model does not capture where the rows appear.
- ExportGui.ContactPanel.LoadContacts: the database connection and the failure paths before `get_contacts()` are not modelled. The scheduling of the redraw on the main thread is modelled as a direct call.
- The contact-frame existence check and the exception handlers around each loop of `_update_contacts_list` and `_create_contact_item` are not modelled.
- Threads are not modelled: the export thread, the report generation thread and the report service call.
- The time-range read in `start_export` takes the two strings as parameters. The model does not capture its exception path (an invalid date shows an error and returns).
- A `None` wxid argument is modelled as the empty string. The source tests it with `not wxid` (config.py:117, 159; wechat_export_gui.py:1619), which treats both the same way. An absent remark is modelled the same way. A contact whose own `wxid` is `None` would raise at wechat_export_gui.py:1257, 1355 and 1611. The model gives every contact a string wxid and does not capture that exception.
- ExportGui.MatchingContacts: lower-casing is ASCII-only, so non-ASCII letters are compared as written, unlike `str.lower`.
- WeeklyReport.FormatMessagesForReport: the per-message `try/except` cannot fire in the model, because the attributes are `Option` values. A present display name or content is taken as a string, not as an arbitrary value formatted by the f-string.
- Config.RecentContactsUnique: "exactly once" is stated only for an earlier list without duplicates. `remove` takes out only the first occurrence, so a list that already held the contact twice can keep a second copy.
- The database engine, the API client for the report service, the report window's other controls and the packaging scripts are not part of this model.

## Findings

| source | as written | input that shows it | evidently intended | confidence | as-written member | corrected member |
|---|---|---|---|---|---|---|
| config.py:96 | `merge_dicts_deep(DEFAULT_CONFIG, config)` passes the defaults as the target, and the target's non-empty values win. | A saved file with `"db_version": 4` loads with `db_version` 3. The same happens to `db_dir`, `output_dir` and `last_export_format`, which wechat_export_gui.py:2118-2122 saves. | The saved values win and the defaults only fill missing or empty keys: `merge_dicts_deep(config, DEFAULT_CONFIG)`. | not executed | Config.LoadConfigAsWrittenLosesSavedVersion | Config.LoadConfigKeepsSaved |
