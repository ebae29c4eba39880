# Switch agent: SET transactions, row status, backbone ports, index tables, checksum

A Dafny model of the hard parts of an SNMP-managed carrier-Ethernet switch, with proofs of what
they promise. The modules follow the parts of the program.

- **SetCore, SetCommit, MdTable, PgTable, OctetColumn**: the SET transaction. SetCore has the
  five phases as functions over a table of rows and one rollback buffer per varbind; SetCommit
  relates three passes to one pass over a map. MdTable (rows made by createAndGo and
  createAndWait) and PgTable (rows made by the first varbind that names them) are the mappers:
  row objects, an iterator context and a rollback buffer for each request, loops over the request
  list, an allocation failure allowed at any point. Each of their methods is proved to compute
  the SetCore function of its name, so the theorems of SetCore and SetCommit are about them.
  OctetColumn is the octet-string column in a fixed array.
- **RowStatus, PortHal, CVid, Backbone, VipUpdate, Cbp**: the row-status handlers of the provider-bridge and
  backbone-bridge ports and what their update partners keep in agreement: the port in hardware,
  the C-VID counter, the interface stack with the VIP bitmap and VIP counter of each PIP, the
  owner of a PIP, and the internal LANs of the CBPs. VipUpdate says when the operations of Backbone
  succeed and what they leave. RowStatus has one handler for the shapes of
  bridge/ieee8021PbMib.c:333-417, 2118-2206, 2802-2877, 3448-3523 and
  bridge/ieee8021PbbMib.c:609-696, 1638-1707, 4947-5022. Calls into the base port, the hardware layer
  and other tables are answers: records of booleans, over which every theorem quantifies.
- **OrderedIndex, LtrTable, CnpTable**: the comparators, the GETNEXT walk and the CNP search.
- **Checksum**: the 16-bit checksum against RFC 1071.
- **Wrappers, Sets**: a value that may be missing, and the size of a subset.

Integers are unbounded, and the program's widths are written out where they matter: the 32-bit
accumulator of the checksum, the C-VID counter (32 bits), the VIP counter (16 bits), the port
index of the CNP search (16 bits), the assignments to the integer columns.

A SET reaches these rows twice: its varbinds are columns, which the mappers write, and its row
status is stored at COMMIT (for example bridge/ieee8021PbMib.c:778-803, 3802-3825 and
bridge/ieee8021PbbMib.c:1064-1087, 2208-2231, 5295-5318). COMMIT calls no handler. Within the
repository the handlers of PNP, CEP, CBP, VIP and PIP are called for the parent only
(ethernet/ethernetUtils.c:445-489, bridge/bridgeUtils.c:764, 868), that of CNP also by the edge-port
update (bridge/bridgeUtils.c:453), and those of the C-VID registration and of the VIP-to-PIP mapping
not at all. So every theorem about runs of these rows has both: commits, and handler calls by anyone.

A lookup by index allocates a temporary row and, short of memory, finds nothing whatever the
table holds. Where the code takes that for an absent row and goes on, the model has an answer for
it.

## What the code does that one would not expect

Each of these is a lemma. Where the property it breaks has an exact condition, the theorem that
states it is named beside it.

- UNDO runs forwards. A failed SET that assigns one cell twice leaves the first of the two
  values behind (`SetCore.DuplicatesBreakRollback`; exactly when: `SetCommit.NothingLeftIff`).
- ifStackTable_createRegister (if/ifMIB.c:1570-1607) succeeds for a pair it already holds, so a
  VIP that is remapped while its component is down is counted twice on its new PIP
  (`Backbone.RemapCountsTwice`). A VIP that leaves a PIP whose lookup is short of memory stays in
  its bitmap (`Backbone.ForgottenVip`). A failed registration leaves a row that is not active,
  and a VIP that leaves by such a row takes another VIP's count (`Backbone.IdleRowMiscounts`).
  These three are all: `Backbone.UpdateAgreesIff`.
- A VIP first activated under a component that is down finds its own node in the I-SID index when
  the component comes up, and that update fails (`Backbone.OwnNodeBlocks`; exactly which VIPs the
  index lets up: `Backbone.ComesUpIff`).
- The first update to destroy a VIP that has an I-SID always fails: it takes the VIP out of the
  index and then finds no I-SID to enter it under (`VipUpdate.FirstDestroyFails`; exactly when an
  update succeeds: `VipUpdate.SucceedsIff`).
- ieee8021PbbPipTable_attachComponent takes a PIP away from the component whose VIPs it carries,
  exactly when it can bind it (`Backbone.AttachTakesOver`); only the VIP update checks the owner
  (`Backbone.OwnerKept`), and it, the only caller, attaches free PIPs only
  (bridge/bridgeUtils.c:669), so the program never makes such a call.
- The base-port handler, asked to destroy, zeroes the interface index first
  (ethernet/ethernetUtils.c:760-770), so destroying a CBP with an interface of its own skips the
  removal of its internal LAN and still succeeds (`Cbp.DestroyLosesTheLan`; exactly when
  ownership is kept and which LANs are lost: `Cbp.HandledOwnedIff`).
- The activation of a CBP that has just made its interface is reported as a success whatever
  fails after that (`Cbp.FreshInterfaceIsSuccess`; exactly when a true answer means a completed
  update: `Cbp.TrueAnswerIff`).
- An edge-port lookup short of memory lets a registration go active uncounted, and its counter
  wraps when it goes down (`CVid.OverlookedEdgePortWraps`); so does an edge port added after its
  registrations went active (`CVid.LateEdgePortWraps`; all such events: `CVid.StepAgreesIff`).
- A SET of active on a PNP, CEP or CBP under a component that is down gives active, where the
  handler would give notReady; the component's next word puts it right, unless the row's update
  fails (`RowStatus.CommitRunsAhead`; exactly which events break the two-bit specification:
  `RowStatus.TwoBitsKeptIff`, and what holds instead on every run: `RowStatus.RefinesTwoBits`).
- A SET of active or notInService on a C-VID registration moves no counter
  (`CVid.CommittedActivationWraps`); it is one of the events of `CVid.StepAgreesIff`.
- A SET of notInService leaves an enabled port on in hardware (`PortHal.CommitLeavesItOn`), and so
  does createAndWait given to a handler for an active row (`PortHal.CreateAndWaitBreaksIt`; the
  tables' RESERVE1 refuses that one for an existing row, bridge/ieee8021PbMib.c:564, 3639, and no
  call of the handlers names it). An administrator's handler call under a component that is down
  would then take the base port from under it (exactly which calls: `PortHal.TurnSafeIff`). The
  program makes no such call, and its own runs are safe (`PortHal.ProgramNeverAhead`).
- A SET of destroy on a CBP with an interface of its own removes the row and leaves its internal
  LAN (`Cbp.RemovedOwned`; the account of all such LANs: `Cbp.RunOwned`).
- A VIP-to-PIP mapping that becomes active tells its VIP before it stores its own status, so the
  VIP stays notReady (`RowStatus.MappingDoesNotActivate`; exactly when a VIP is active:
  `RowStatus.VipActiveIff`).
- The CNP search keeps the port in 16 bits, so a row at port 65536 that does not serve sends it
  round for ever (`CnpTable.WidePortLoops`). It ends exactly when a serving row comes before every
  such row: `CnpTable.CnpTable.Search` one way, `CnpTable.SearchNeverEnds` the other.
- The high half of the checksum's result is not masked (`Checksum.XIeeeCrc16`).

## Model

| member | source | states |
|---|---|---|
| `SetCore.ReserveStopped` | cfm/ieee8021CfmMib.c:665-669 | leaving RESERVE2 at the first failed creation comes to running the rest of the list without effect |
| `SetCore.ActionStopped` | cfm/ieee8021CfmMib.c:726-730 | the same for ACTION and a failed rollback-buffer allocation |
| `SetCore.CreationFailureStops` | cfm/ieee8021CfmMib.c:659-670 | RESERVE2 makes no row after the first it could not make |
| `SetCore.BuffersLetGo` | cfm/ieee8021CfmMib.c:690-897 | after FREE and UNDO no rollback buffer is a row, and after COMMIT none is the row of a createAndGo or createAndWait |
| `SetCore.ReserveKeeps` | cfm/ieee8021CfmMib.c:638-688 | after any prefix of RESERVE2 old rows are untouched and every new row is blank and carried by a sentinel of the varbind that made it |
| `SetCore.ReserveSettles` | cfm/ieee8021CfmMib.c:638-688 | what FREE and ACTION find: no saved value yet, a row for every sentinel, and a row for every varbind if there was no error |
| `SetCore.FreeUndoesReserve` | cfm/ieee8021CfmMib.c:690-714 | FREE gives back the table from before RESERVE2, wherever that stopped, for any list, competing creations included |
| `SetCore.ActionIs` | cfm/ieee8021CfmMib.c:716-800 | ACTION is the assignments of the varbinds completed before the first allocation failure, each buffer holding what its cell was just before, or still the sentinel |
| `SetCore.ReserveFailsIff` | cfm/ieee8021CfmMib.c:638-688 | RESERVE2 fails exactly when, by the table, the list and the memory, some varbind names a missing row or cannot create its own; otherwise the rows are those made and each is carried by its maker |
| `SetCore.DoneIsCompleted` | cfm/ieee8021CfmMib.c:716-800 | ACTION completes the varbinds before the first that needs a rollback buffer and gets no memory |
| `SetCore.UndoIsRows` | cfm/ieee8021CfmMib.c:825-866 | UNDO removes exactly the rows whose sentinel a varbind carries, and keeps the columns of the others |
| `SetCore.UndoIsCell` | cfm/ieee8021CfmMib.c:825-866 | running forwards, UNDO leaves in each cell the value of the last buffer saved for it |
| `SetCore.RollbackIs` | cfm/ieee8021CfmMib.c:638-866 | a failed SET leaves the old keys and in each old cell the value before its last completed assignment, for any list and failure point |
| `SetCore.RollbackExactIff` | cfm/ieee8021CfmMib.c:638-866 | the rollback is exact if and only if, for every old cell, what it held before the last assignment among the completed varbinds is its first value |
| `SetCore.RollbackExact` | cfm/ieee8021CfmMib.c:638-866 | for distinct (row, column) pairs the table after UNDO is the table before RESERVE2, whichever allocation failed |
| `SetCore.DuplicatesBreakRollback` | cfm/ieee8021CfmMib.c:826-848 | two assignments to one cell, undone forwards, leave the first one's value: distinctness is needed |
| `SetCommit.PhasesAreApplied` | cfm/ieee8021CfmMib.c:638-688 | RESERVE2's rows, then all assignments, then all status changes give what applying each varbind once in list order gives; no distinctness needed |
| `SetCommit.CommittedIsApplied` | cfm/ieee8021CfmMib.c:868-897 | a SET that succeeds leaves the table its varbinds describe when applied to a map in order |
| `SetCommit.CommittedTable` | cfm/ieee8021CfmMib.c:638-897 | row by row and cell by cell what a SET of distinct cells that succeeds leaves: the old and the made rows without the destroyed ones, each named cell with what its varbind puts in it, each other cell with what it held or the blank row's value |
| `SetCommit.AllOrNothing` | cfm/ieee8021CfmMib.c:638-897 | section 4.2.5 of RFC 3416: for distinct cells, all varbinds take effect or none does, for every failure point, another handler's failure included |
| `SetCommit.SucceedsIff` | cfm/ieee8021CfmMib.c:638-823 | a SET succeeds exactly when no varbind is refused and none is short of a rollback buffer |
| `SetCommit.NothingLeftIff` | cfm/ieee8021CfmMib.c:638-866 | for any list, when exactly a failed SET leaves nothing behind, by the table, the list and the memory |
| `SetCommit.OrderIndependence` | cfm/ieee8021CfmMib.c:868-897 | two orders of the same distinct varbinds that both pass RESERVE2 commit the same table |
| `MdTable.RequestsObey` | cfm/ieee8021CfmMib.c:645-686 | this table's varbinds meet what the commit theorem needs, and distinct cells give distinct requests |
| `MdTable.SucceedsIffAllPass` | cfm/ieee8021CfmMib.c:638-823 | in the values of the varbinds: a SET succeeds iff each createAndGo or createAndWait has memory for a row and an index without one, each other varbind has its row, there or made before it, and each column its rollback buffer |
| `MdTable.SetReflects` | cfm/ieee8021CfmMib.c:868-897 | in the values of the varbinds: status 1 or 4 leaves 1, 2 or 5 leaves 2, 6 no row; an octet string and an integer of 32 bits are shown as given, a wider integer modulo 2^32; the other cells hold what they held, or 4, "", 0, 1, 1, 2 in a new row |
| `MdTable.MdRow.constructor` | cfm/ieee8021CfmMib.c:389-394 | the column defaults of a new row |
| `MdTable.MdRow.Assign` | cfm/ieee8021CfmMib.c:737-797 | one column takes the value, with its C conversion; the others stay |
| `MdTable.MdRow.Save` | cfm/ieee8021CfmMib.c:731-795 | the rollback buffer holds what GET shows for the column |
| `MdTable.MdRow.Restore` | cfm/ieee8021CfmMib.c:838-853 | GET shows the buffer's value again, though the tail of the name array may differ |
| `MdTable.MdMapper.CreateEntry` | cfm/ieee8021CfmMib.c:371-398 | a blank row under a new index, or nothing if memory is short or the index is taken |
| `MdTable.MdMapper.RemoveEntry` | cfm/ieee8021CfmMib.c:447-459 | the row of that index leaves the table; an index not in the table is no error |
| `MdTable.MdMapper.ReserveOne` | cfm/ieee8021CfmMib.c:641-686 | one varbind of RESERVE2 on objects is SetCore's step |
| `MdTable.MdMapper.SetReserve2` | cfm/ieee8021CfmMib.c:638-688 | RESERVE2 over the request list is SetCore's, and every request still has its row if there is one |
| `MdTable.MdMapper.SetFree` | cfm/ieee8021CfmMib.c:690-714 | FREE is SetCore's |
| `MdTable.MdMapper.ActionOne` | cfm/ieee8021CfmMib.c:717-799 | one varbind of ACTION: save unless the buffer is the row, then assign |
| `MdTable.MdMapper.SetAction` | cfm/ieee8021CfmMib.c:716-823 | ACTION is SetCore's |
| `MdTable.MdMapper.UndoOne` | cfm/ieee8021CfmMib.c:827-865 | one varbind of UNDO |
| `MdTable.MdMapper.SetUndo` | cfm/ieee8021CfmMib.c:825-866 | UNDO is SetCore's |
| `MdTable.MdMapper.CommitOne` | cfm/ieee8021CfmMib.c:869-896 | one varbind of COMMIT: status stored, or row removed |
| `MdTable.MdMapper.SetCommit` | cfm/ieee8021CfmMib.c:868-897 | COMMIT is SetCore's |
| `MdTable.MdMapper.SetPdu` | cfm/ieee8021CfmMib.c:638-897 | a whole SET on row objects: it succeeds exactly when every varbind passes; then it applies the varbinds in order and, for distinct cells, leaves what their values say; it leaves the table as it was if it fails and names no cell twice |
| `PgTable.RequestsObey` | bridge/ieee8021PbbTeMib.c:2238-2267 | every column of this table creates its row on demand and none has a part in COMMIT |
| `PgTable.SucceedsIffAllPass` | bridge/ieee8021PbbTeMib.c:2230-2384 | in the keys of the varbinds: a SET succeeds iff the first varbind of each missing row has memory for the row, and each other one for its rollback buffer |
| `PgTable.SetReflects` | bridge/ieee8021PbbTeMib.c:2303-2384 | in the values of the varbinds: the rows are the old and the named ones; a named cell shows its value within the signed 32, unsigned 32 or 8 bits of its column, and modulo those otherwise; the other cells hold what they held, or the defaults 1, 5, 0, 2 and 3 in a new row |
| `PgTable.PgRow.constructor` | bridge/ieee8021PbbTeMib.c:1977-1981 | the column defaults of a new row |
| `PgTable.PgRow.Assign` | bridge/ieee8021PbbTeMib.c:2324-2380 | one column takes the value, with its C conversion; the others stay |
| `PgTable.PgRow.Copy` | bridge/ieee8021PbbTeMib.c:2407-2451 | one column takes the saved value; the others stay |
| `PgTable.PgMapper.CreateEntry` | bridge/ieee8021PbbTeMib.c:1956-1985 | a blank row under a new key, or nothing if memory is short or the key is taken |
| `PgTable.PgMapper.ReserveOne` | bridge/ieee8021PbbTeMib.c:2233-2275 | one varbind of RESERVE2: the first to name a missing row makes it and keeps it as its buffer |
| `PgTable.PgMapper.SetReserve2` | bridge/ieee8021PbbTeMib.c:2230-2276 | RESERVE2 is SetCore's |
| `PgTable.PgMapper.SetFree` | bridge/ieee8021PbbTeMib.c:2278-2301 | FREE is SetCore's: it removes exactly the rows born in this PDU |
| `PgTable.PgMapper.ActionOne` | bridge/ieee8021PbbTeMib.c:2305-2383 | one varbind of ACTION: a row that is its own buffer is written without saving |
| `PgTable.PgMapper.SetAction` | bridge/ieee8021PbbTeMib.c:2303-2384 | ACTION is SetCore's |
| `PgTable.PgMapper.UndoOne` | bridge/ieee8021PbbTeMib.c:2388-2455 | one varbind of UNDO: the sentinel tells removal from restoration |
| `PgTable.PgMapper.SetUndo` | bridge/ieee8021PbbTeMib.c:2386-2456 | UNDO is SetCore's |
| `PgTable.PgMapper.SetPdu` | bridge/ieee8021PbbTeMib.c:2230-2459 | a whole SET with rows created on demand succeeds exactly when every varbind passes; then it applies the varbinds in order and, for distinct cells, leaves what their values say; if it fails and names no cell twice it leaves the table as it was, for any mix of columns, rows and failure points |
| `PgTable.CommitNothing` | bridge/ieee8021PbbTeMib.c:2458-2459 | SetCore's COMMIT of this table's varbinds changes nothing, like the empty case |
| `OctetColumn.Column.Save` | bridge/ieee8021PbbTeMib.c:1786-1791 | the buffer gets the whole array and the length |
| `OctetColumn.Column.Assign` | bridge/ieee8021PbbTeMib.c:1793-1795 | memset and memcpy leave the new value followed by zeros, within capacity |
| `OctetColumn.Column.Undo` | bridge/ieee8021PbbTeMib.c:1849-1852 | the saved length of bytes comes back, the tail stays |
| `OctetColumn.Column.Set` | bridge/ieee8021PbbTeMib.c:1657-1664 | a value that fits is accepted; the shown value is then the new one if the SET commits and the old one if it does not, and the length never exceeds the capacity |
| `OctetColumn.After` | bridge/ieee8021PbbTeMib.c:1778-1852 | the same of the column as a value |
| `OctetColumn.ArrayRestoredIff` | bridge/ieee8021PbbTeMib.c:1849-1852 | the whole array comes back if and only if the bytes past the old length were those the new value put there |
| `OctetColumn.RunShowsLastCommitted` | bridge/ieee8021PbbTeMib.c:1657-1852 | after any run of SETs the column shows the last committed value that fitted |
| `RowStatus.Row.Handler` | bridge/ieee8021PbMib.c:2802-2877 | the guards and the switch of the handlers, for ports, PIPs and VIPs, give the status and answer of the transition function and hand the update the status it says |
| `RowStatus.AskedIs` | bridge/ieee8021PbbMib.c:609-696 | which calls get as far as the update and what they ask of it: active only for a row that is let up, by its parent or under an active one, mapped or owned where its kind needs it |
| `RowStatus.FailedUpdateIsNoChange` | bridge/ieee8021PbbMib.c:654-659 | for every kind, a call whose update fails leaves the status and answers failure exactly to the administrator |
| `RowStatus.MovesIff` | bridge/ieee8021PbbMib.c:639-690 | exactly which calls bring a row to active, to notReady and to notInService |
| `RowStatus.RefusedIff` | bridge/ieee8021PbbMib.c:609-696 | exactly which calls are answered with a failure, none of the parent's among them |
| `RowStatus.WantedIffInService` | bridge/ieee8021PbMib.c:346-416 | over every run of handler calls, with any failures, and commits the stored status is active, notInService or notReady, and notInService exactly while the administrator does not want the row |
| `RowStatus.ActiveIff` | bridge/ieee8021PbbMib.c:609-696 | over every run, whatever fails, a row is active iff some turn brought it up - a commit of active, or a call whose update to active succeeded - and none took it down since, or it was so from the start |
| `RowStatus.ParentNeverActivates` | bridge/ieee8021PbMib.c:2815-2876 | no sequence of parent events and commits of notInService brings up a row that is notInService, and a call from the parent never reports failure |
| `RowStatus.Row.Commit` | bridge/ieee8021PbMib.c:3802-3818 | COMMIT's assignment to the status |
| `RowStatus.RefinesTwoBits` | bridge/ieee8021PbMib.c:3448-3523 | over every run of calls and commits, whichever updates fail, the status is the specification of wanted and up, where a row that active was committed for, or that failed to go down, while the parent is down counts as up, and a row that failed to come up with its parent counts as down |
| `RowStatus.TwoBitsKeptIff` | bridge/ieee8021PbMib.c:3802-3818 | an event keeps the plain two-bit specification iff it neither commits active under a parent that is down nor is a word of the parent that the row's update fails to follow |
| `RowStatus.CommitRunsAhead` | bridge/ieee8021PbMib.c:3804-3812 | such a commit gives active where the specification says notReady, until the parent's next word that the update follows |
| `RowStatus.FlapIsIdentity` | bridge/ieee8021PbbMib.c:4947-5022 | after any run of calls and commits, whichever updates fail, a parent that goes down and comes up again leaves the row as it was iff the row was not behind its parent, and then it comes up |
| `RowStatus.VipActiveIff` | bridge/ieee8021PbbMib.c:609-696 | over every run of calls, whichever updates fail, of commits and of mapping changes told or untold, a VIP is active iff wanted and either its component is up, its mapping active and it was brought up since, or active was committed, the mapping withdrawn untold or an update to take it down failed, and nobody has taken it down since |
| `RowStatus.MappingDoesNotActivate` | bridge/bridgeUtils.c:859-878 | the mapping that comes up last leaves its VIP notReady |
| `PortHal.PortRow.HalUpdate` | ethernet/ethernetUtils.c:835-856 | enable, disable and destroy in hardware, with each state passed through |
| `PortHal.PortRow.BaseHandler` | ethernet/ieee8021BridgeMib.c:1485-1550 | the base-port row's status, with each state passed through |
| `PortHal.BaseEndsIff` | ethernet/ieee8021BridgeMib.c:1485-1550 | when the base-port handler succeeds and the status it leaves, for every request |
| `PortHal.PortRow.Update` | bridge/bridgeUtils.c:520-535 | the update partner's states in its order: hardware down, base port, hardware up |
| `PortHal.PortRow.Switch` | bridge/ieee8021PbMib.c:3460-3512 | the handler's switch: the states its update passes through and the status it comes to |
| `PortHal.PortRow.Handler` | bridge/ieee8021PbMib.c:3448-3523 | a handler call with its update, with each state passed through |
| `PortHal.UpdateEndsIff` | ethernet/ethernetUtils.c:835-856 | exactly when an update completes, and exactly when it leaves the port on, whatever fails: a completed activation of a row that is not active always does |
| `PortHal.CallEndsIff` | bridge/bridgeUtils.c:520-535 | exactly when a handler call leaves the port on, and the status it stores, over the row, the request and the answers |
| `PortHal.CallKeepsStepIff` | bridge/bridgeUtils.c:520-535 | a call keeps the port on exactly while its row is active iff it is not an activation with a new interface that fails later, an update of an active row that fails after disabling the port, or createAndWait on an active row |
| `PortHal.OnExactlyWhileActive` | ethernet/ethernetUtils.c:445-489 | over every run of calls without createAndWait in which nothing asked fails, the port is on exactly while its row is active |
| `PortHal.CallSafeIff` | bridge/bridgeUtils.c:689-704 | from a safe state every state of a call is safe if and only if the call does not take down the base port under a row that is on though not active |
| `PortHal.UpdateEnds` | bridge/bridgeUtils.c:1079-1094 | only a completed activation ends with the port on; any other update ends with it off, or stopped before it did anything |
| `PortHal.CallKeepsTied` | bridge/bridgeUtils.c:520-535 | a call that is not createAndWait on an active row keeps an enabled port under an active row and an active base port |
| `PortHal.PortRow.CommitStatus` | bridge/ieee8021PbMib.c:3802-3818 | COMMIT's assignment to the status touches neither base port nor hardware |
| `PortHal.TurnSafeIff` | bridge/bridgeUtils.c:520-535 | from a held port - on only over an active base port, and not while notReady - every state of a call or commit is safe iff it does not ask for notReady while the port is on, and then the port is held at the end |
| `PortHal.HardwareNeverAhead` | bridge/bridgeUtils.c:689-704 | on every run of calls and commits without such a call, whatever fails, in every state passed through an enabled port has an active base port |
| `PortHal.ProgramNeverAhead` | ethernet/ethernetUtils.c:445-489 | on every run of commits and parent calls, whatever fails, the same without condition |
| `PortHal.CallsKeepTied` | bridge/bridgeUtils.c:1079-1094 | on every run of handler calls without createAndWait on an active row, the same, and an enabled port has an active row too |
| `PortHal.CommitLeavesItOn` | bridge/ieee8021PbMib.c:3814-3817 | a commit of notInService leaves the port on, and an administrator's activation under a component that is down then takes the base port from under it |
| `PortHal.CreateAndWaitBreaksIt` | bridge/ieee8021PbMib.c:3500-3505 | with that createAndWait, hardware stays enabled over a base port that is notReady |
| `CVid.Registrations.Update` | bridge/bridgeUtils.c:376-435 | the counter moves only when the row enters or leaves active, every lookup and handler it needs succeeds and the edge port is found |
| `CVid.Registrations.Switch` | bridge/ieee8021PbMib.c:333-417 | the handler's guards and switch: the counter, the new status and the answer |
| `CVid.Registrations.RowStatusHandler` | bridge/ieee8021PbMib.c:333-417 | a handler call on the two tables is the transition function |
| `CVid.Registrations.CommitStatus` | bridge/ieee8021PbMib.c:778-795 | COMMIT stores the status of a registration and touches no counter |
| `CVid.StatusIs` | bridge/ieee8021PbMib.c:333-417 | from each stored status, for each request, over the lookups and answers: the status the handler stores, its answer, and no other row touched; the refusal of the VLAN member update among them |
| `CVid.HandledIsNext` | bridge/ieee8021PbMib.c:333-417 | the handler is the transition of RowStatus for a port, so its theorems are about registrations |
| `CVid.Life` | bridge/bridgeUtils.c:376-435 | a registration made, given an S-VID, activated, destroyed and removed: its edge port counts 1, then 0, and nothing is left |
| `CVid.FewMembers` | bridge/ieee8021PbMib.c:139-167 | an edge port has at most as many registrations as there are 32-bit C-VIDs, and as rows in the table |
| `CVid.CounterFollows` | bridge/bridgeUtils.c:405-427 | one counter moves with the registration's status and no other changes, except in a createAndWait and in a call that does not find the edge port |
| `CVid.HandledAgreesIff` | bridge/ieee8021PbMib.c:333-417 | a handler call keeps each counter equal to its number of active registrations iff it is neither createAndWait on a counted row nor an update that overlooks the edge port |
| `CVid.StepAgreesIff` | bridge/bridgeUtils.c:376-427 | conservation: an event keeps that agreement iff it is not one of six named disturbances, a commit of the status in or out of active among them |
| `CVid.RunAgrees` | bridge/bridgeUtils.c:376-426 | conservation on every run of handler calls, commits, edits and row changes from empty tables without disturbances |
| `CVid.NoWrap` | bridge/bridgeUtils.c:424-427 | while the tables agree and hold fewer than 2^32 registrations the counter is the number of active ones and an update moves it by one without wrapping |
| `CVid.LateEdgePortWraps` | bridge/ieee8021PbMib.c:902 | an edge port added after a registration went active wraps its counter when that goes down |
| `CVid.OverlookedEdgePortWraps` | bridge/bridgeUtils.c:405-427 | a registration activated while the edge-port lookup is short of memory is not counted, and its deactivation wraps the counter |
| `CVid.CommittedActivationWraps` | bridge/ieee8021PbMib.c:782-788 | a registration activated by a SET is not counted, and a handler call that takes it down wraps the counter |
| `Backbone.Bridge.DetachComponent` | bridge/bridgeUtils.c:778-831 | the state at every exit of the detachment |
| `Backbone.Bridge.PipHandler` | bridge/ieee8021PbbMib.c:1638-1707 | a handler call with its update, which detaches when the row is destroyed |
| `Backbone.Bridge.AttachComponent` | bridge/bridgeUtils.c:726-776 | release, base port, physical port, owner, handler: the state at every exit |
| `Backbone.Bridge.BindPort` | bridge/bridgeUtils.c:742-775 | the part after the release, with its cleanup |
| `Backbone.Bridge.TakeSnapshot` | bridge/bridgeUtils.c:562-589 | the old entry is kept once on the way out of service |
| `Backbone.Bridge.MoveISid` | bridge/bridgeUtils.c:592-618 | the VIP moves in the I-SID index from its old to its new I-SID, or fails out of it |
| `Backbone.Bridge.LeavePip` | bridge/bridgeUtils.c:621-646 | stack row and snapshot go together, and with them bitmap bit and count if the PIP is found; or nothing changes |
| `Backbone.Bridge.JoinPip` | bridge/bridgeUtils.c:648-684 | lookup, owner check, attachment and registration, with every failure exit |
| `Backbone.Bridge.RegisterVip` | if/ifMIB.c:1570-1607 | stack row, bitmap bit and counter are set together; a row made for a registration that fails stays, not active |
| `Backbone.Bridge.FinishVip` | bridge/bridgeUtils.c:687-719 | hardware, base port and the end of the snapshot |
| `Backbone.Bridge.VipUpdate` | bridge/bridgeUtils.c:544-724 | the whole VIP update, through every exit, is the transition function |
| `VipUpdate.SucceedsIff` | bridge/bridgeUtils.c:544-724 | for every request, exactly when a VIP update succeeds, over VIP, PIP, physical ports, stack and answers: base port, snapshot, I-SID, leaving the old PIP, joining the new one - its own or a free one it can attach, of its chassis - hardware |
| `VipUpdate.SuccessLeaves` | bridge/bridgeUtils.c:544-724 | what an update that succeeds leaves of every VIP, PIP, stack row, physical and base port and of the I-SID index |
| `VipUpdate.JoinsAtSuccess` | bridge/bridgeUtils.c:648-684 | after an update that joins a PIP succeeds the VIP's row on it is live, its bit set, the PIP its component's, and the VIP names it |
| `VipUpdate.FirstJoin` | bridge/bridgeUtils.c:663-682 | from a PIP and a VIP just made: the first activation attaches the free PIP and stacks the VIP on it, when nothing fails |
| `VipUpdate.ISidDoes` | bridge/bridgeUtils.c:592-618 | exactly when the I-SID passes, and what the step leaves of index and snapshot, through its failure as well |
| `VipUpdate.FirstDestroyFails` | bridge/bridgeUtils.c:581-618 | the first update to destroy a VIP with an I-SID fails whatever the answers and takes it out of the index; for the next one the I-SID passes |
| `VipUpdate.DetachSucceedsIff` | bridge/bridgeUtils.c:778-831 | exactly when a PIP can be detached, and the state it leaves, through every failure |
| `VipUpdate.AttachSucceedsIff` | bridge/bridgeUtils.c:726-776 | exactly when a PIP can be attached, its release from another owner included, for which the base port it gives up is free again |
| `VipUpdate.BindFailureLeaves` | bridge/bridgeUtils.c:742-775 | an attachment that fails after the release leaves everything as it was, but for a new base port that does not go again |
| `VipUpdate.RegisterFailureLeaves` | if/ifMIB.c:1570-1607 | a registration that fails leaves everything as it was, but for a row made for it, which stays and is not active |
| `VipUpdate.PipHandledIs` | bridge/ieee8021PbbMib.c:1638-1707 | the PIP handler is the transition of RowStatus, told that the row is ready while it has an owner and what the update answered; only destroying touches more than the status |
| `VipUpdate.PipStatusIs` | bridge/ieee8021PbbMib.c:1638-1707 | from each stored status, for each request: the status the PIP handler stores, and its answer |
| `Backbone.UnstackAgreesIff` | bridge/bridgeUtils.c:631-646 | leaving a PIP keeps the agreement iff the PIP of an active row is found and an idle row's PIP counts nobody; a VIP that leaves rightly takes one off a counter that is not zero, so the guard hides nothing |
| `Backbone.OwnAgrees` | bridge/bridgeUtils.c:655-672 | taking a free PIP keeps the agreement and makes it the VIP's component's |
| `Backbone.RegisterAgreesIff` | bridge/bridgeUtils.c:674-682 | registration keeps the agreement iff it does not bring up again the row of a VIP stacked there already |
| `Backbone.UpdateLocalAgreesIff` | bridge/bridgeUtils.c:592-684 | the same of the steps from the I-SID to the registration |
| `Backbone.UpdateAgreesIff` | bridge/bridgeUtils.c:544-724 | one VIP update, through every success and failure exit, keeps stack, bitmap, counter, owner and chassis in agreement iff it does not stack a VIP twice on a PIP nor have it leave one that is not found or by an idle row |
| `Backbone.RemapCountsTwice` | bridge/bridgeUtils.c:621-682 | a concrete run of three successful updates after which a PIP counts two VIPs and has one |
| `Backbone.ForgottenVip` | bridge/bridgeUtils.c:631-646 | a concrete successful update after which a PIP counts a VIP that is stacked nowhere |
| `Backbone.IdleRowMiscounts` | if/ifMIB.c:1594-1607 | a concrete successful update that takes another VIP's count by way of a row that never came up |
| `Backbone.ComesUpIff` | bridge/bridgeUtils.c:597-616 | some answers bring a VIP up iff it has its snapshot's I-SID, or an I-SID that no VIP holds in the index, itself included |
| `Backbone.OwnNodeBlocks` | bridge/bridgeUtils.c:597-616 | after a first activation under a component that is down, the next update to active or notReady finds the VIP's own node, fails and changes nothing |
| `Backbone.CounterCounts` | bridge/bridgeUtils.c:680-681 | while the structures agree the counter is the number of VIPs stacked on the PIP, at most 4096 |
| `Backbone.OwnerKept` | bridge/bridgeUtils.c:655-682 | a VIP update, whatever fails, leaves the owner of a PIP that carries a VIP alone |
| `Backbone.AttachAtomic` | bridge/bridgeUtils.c:736-775 | once the PIP is released an attachment succeeds iff its physical port is there and found, there is a free port and no chassis conflict, with PIP, physical port and new base port naming each other; or it leaves PIP and physical port unchanged and no extra base port unless its removal fails |
| `Backbone.DetachUndoesAttach` | bridge/bridgeUtils.c:778-831 | detaching gives back the state before the attachment, but for the PIP's status |
| `Backbone.OwnerMatters` | bridge/bridgeUtils.c:655-672 | while the structures agree, a PIP can change its owner exactly when it counts no VIP |
| `Backbone.AttachTakesOver` | bridge/bridgeUtils.c:736-775 | attaching a PIP that carries VIPs to another component, which its one caller never does, breaks the agreement iff the physical port is there and found, there is a free port and no chassis conflict |
| `Backbone.PipHandledAgreesIff` | bridge/ieee8021PbbMib.c:1638-1707 | a PIP handler call keeps the agreement iff it does not clear the owner of a PIP that still counts VIPs |
| `Backbone.StepAgreesIff` | bridge/bridgeUtils.c:544-857 | an event keeps the agreement iff it fits: updates, handler calls, commits and edits by SET of PIP status, I-SID and the interface of a VIP's base port, rows created and removed, other code's ports |
| `Backbone.RunAgrees` | bridge/bridgeUtils.c:544-857 | on every run of fitting events the structures agree, and each counter is the number of VIPs stacked, at most 4096 |
| `Cbp.CbpTable.CreateEntry` | bridge/ieee8021PbbMib.c:4757-4782 | a new row has no interface of its own; short memory or an existing key makes none |
| `Cbp.CbpTable.CommitStatus` | bridge/ieee8021PbbMib.c:5299-5309 | COMMIT stores the status of a row and gives nothing back |
| `Cbp.CbpTable.RemoveEntry` | bridge/ieee8021PbbMib.c:5312-5314 | COMMIT of destroy removes the row and gives nothing back |
| `Cbp.CbpTable.AcquireInterface` | bridge/bridgeUtils.c:1044-1076 | internal LAN, physical port and flag are made together, or a LAN alone may stay |
| `Cbp.CbpTable.ReleaseInterface` | bridge/bridgeUtils.c:1097-1128 | physical port, LAN, interface index and flag are given back in that order; a LAN that is not found counts as given back |
| `Cbp.CbpTable.RowStatusUpdate` | bridge/bridgeUtils.c:1030-1137 | the whole update, through every exit, with its early return value |
| `Cbp.CbpTable.RowStatusHandler` | bridge/ieee8021PbbMib.c:4947-5022 | a handler call with its update |
| `Cbp.StoredStatusIs` | bridge/ieee8021PbbMib.c:4947-5022 | from each stored status, for each request, over the answers: the status the handler stores, and its answer |
| `Cbp.HandledIsNext` | bridge/ieee8021PbbMib.c:4947-5022 | the handler is the transition of RowStatus for a port |
| `Cbp.FlapGivesBack` | bridge/ieee8021PbbMib.c:4947-5022 | a component that goes down and comes up, with updates that complete, gives an active CBP back as it was, or with a new interface if it had none, and leaves one out of service alone |
| `Cbp.RunKeepsTwoBits` | bridge/ieee8021PbbMib.c:4947-5022 | over every run of handler calls for this CBP and others, whichever updates fail, of SETs and of other code's doings, the row's status is the two-bit specification, with the rows ahead and behind |
| `Cbp.CreatedKeepsTwoBits` | bridge/ieee8021PbbMib.c:4757-4782 | in particular from the creation of the row on |
| `Cbp.UpdateOwnedIff` | bridge/bridgeUtils.c:1030-1137 | each CBP marked internal has its own live LAN after an update iff the base port did not drop the interface of an internal CBP; the LANs without an owner grow by exactly those lost |
| `Cbp.HandledOwnedIff` | bridge/ieee8021PbbMib.c:4947-5022 | the same of one handler call |
| `Cbp.RemovedOwned` | bridge/ieee8021PbbMib.c:5312-5314 | removing the row of an internal CBP leaves its LAN without an owner and every other ownership as it was |
| `Cbp.StepOwnedIff` | bridge/bridgeUtils.c:1030-1137 | a handler call, commit, row creation or removal, edit of a base port's interface or change by other code keeps ownership iff no internal CBP loses its LAN by it or gets another's; the LANs without an owner change by exactly those lost and taken |
| `Cbp.RunOwned` | bridge/bridgeUtils.c:1044-1128 | on every run of such events that keep it, ownership holds and the LANs without an owner are exactly those of the account: of the start, made by others, half made, not found when given back, of removed rows and edited base ports, less those taken |
| `Cbp.FreshInterfaceIsSuccess` | bridge/bridgeUtils.c:1064-1067 | an activation that makes an interface succeeds and is stored as active whatever fails later |
| `Cbp.TrueAnswerIff` | bridge/bridgeUtils.c:1030-1137 | the update answers true iff every step succeeded, or it made an interface and then failed at the base port or the hardware |
| `Cbp.DestroyUndoesActivate` | bridge/bridgeUtils.c:1097-1128 | activation then destruction restores interface index, flag, LANs and physical ports when the calls succeed and the base port keeps the interface, as this code expects and the program's base port does not |
| `Cbp.DestroyLosesTheLan` | ethernet/ethernetUtils.c:760-770 | with the base-port handler as it is, destroying an internal CBP succeeds and leaves its LAN without an owner |
| `OrderedIndex.AscendingUnique` | cfm/ieee8021CfmMib.c:3394-3430 | an ascending sequence of given keys is unique: a walk in order has no choice |
| `OrderedIndex.Tree.FindNext` | cfm/ieee8021CfmMib.c:3362-3378 | the least key above a given one, which need not be in the tree, or none |
| `OrderedIndex.Tree.GetNextRow` | cfm/ieee8021CfmMib.c:3404-3430 | one step of the iterator: this row, and the next context |
| `OrderedIndex.Tree.Walk` | cfm/ieee8021CfmMib.c:3394-3430 | the walk ends, and visits every key once in strictly ascending order |
| `LtrTable.CmpIsLexicographic` | cfm/ieee8021CfmMib.c:3268-3282 | the five-key comparator is the lexicographic order of the index parts, 0 exactly for equal keys |
| `LtrTable.CmpOrders` | cfm/ieee8021CfmMib.c:3268-3282 | it is a strict total order |
| `LtrTable.LtrTable.CreateEntry` | cfm/ieee8021CfmMib.c:3287-3315 | the row is added unless memory is short or the key is taken |
| `LtrTable.LtrTable.RemoveEntry` | cfm/ieee8021CfmMib.c:3380-3391 | the row is removed; a missing one is no error |
| `LtrTable.LtrTable.GetNextIndex` | cfm/ieee8021CfmMib.c:3348-3378 | the lexicographically next row, or none if there is none or memory is short |
| `LtrTable.LtrTable.Walk` | cfm/ieee8021CfmMib.c:3394-3430 | a GETNEXT walk visits exactly the table's rows in strictly ascending lexicographic order |
| `CnpTable.CmpOrders` | bridge/ieee8021PbMib.c:1915-1926 | the two-key comparator is a strict total order |
| `CnpTable.WidePortLoops` | bridge/ieee8021PbMib.c:1059-1068 | a row at port 65536 sends the search back to where it was |
| `CnpTable.CnpTable.CreateEntry` | bridge/ieee8021PbMib.c:1931-1955 | the row is added unless memory is short or the key is taken |
| `CnpTable.CnpTable.GetNextIndex` | bridge/ieee8021PbMib.c:1982-2005 | the next row after a component and port, or none if there is none or memory is short |
| `CnpTable.SearchAdvances` | bridge/ieee8021PbMib.c:1062-1068 | where a serving row comes before every trap, a row passed over has a port of 16 bits, does not serve, and neither does any before it |
| `CnpTable.PassesUnique` | bridge/ieee8021PbMib.c:1059-1068 | given its memory, the search has no choice of rows to pass |
| `CnpTable.SearchNeverEnds` | bridge/ieee8021PbMib.c:1059-1068 | with a row beyond port 65535 that does not serve and has no serving row before it, the search passes any number of rows |
| `CnpTable.CnpTable.Search` | bridge/ieee8021PbMib.c:1059-1078 | where a serving row comes before every row it would pass beyond port 65535, the loop ends; it finds the least-port row of the component with the wanted C-component and S-VID in its columns if one exists, and finds none only if none exists or a lookup was short of memory |
| `Checksum.AccumulatorFits` | switch_main.c:72-78 | the plain word sum of any buffer of at most 65535 bytes fits the 32-bit accumulator |
| `Checksum.OnesSumIsCanon` | switch_main.c:72-82 | the end-around-carry sum of section 1 of RFC 1071 is the plain sum's residue modulo 65535, the two zeros told apart |
| `Checksum.OnesSumCongruent` | switch_main.c:72-82 | the end-around-carry sum is congruent to the plain sum modulo 65535 |
| `Checksum.TwoFolds` | switch_main.c:80-81 | two folds suffice for every 32-bit accumulator |
| `Checksum.FoldAndComplement` | switch_main.c:80-82 | the low half of the result is the complement of that residue |
| `Checksum.XIeeeCrc16` | switch_main.c:68-83 | for every buffer of at most 65535 bytes the low 16 bits of the result are its RFC 1071 checksum, though the accumulator wraps at 32 bits |
| `Checksum.SelfVerification` | switch_main.c:68-83 | appending a word to an even-length buffer makes the checksum 0 iff it is the buffer's checksum, the two zeros being equal |
| `Checksum.OrderIndependence` | switch_main.c:72-82 | the checksum does not depend on the order of the words |
| `Checksum.ByteOrderIndependence` | switch_main.c:72-82 | swapping the bytes of every word of an even-length buffer swaps the bytes of the checksum |

## Left out

- Backbone.Bridge.VipUpdate: rows are values in map fields, so updating a row through a second pointer is not captured; the I-SID index is the set of VIPs in it, its lookup is an arbitrary answer (editing an I-SID disorders the tree), and no claim is made about I-SID uniqueness.
- Backbone.RunAgrees: physical and base ports may be changed by other code at any time; the VIP and PIP removal code beyond the removal of the row is not part of this model.
- Cbp.CbpTable.RowStatusUpdate: rows and their base ports' interface indices are values in a map field; the physical port's capability bits are not kept.
- CVid.Registrations.Update: rows are values in map fields; the untagged-port bitmaps and the VLAN rows are answers.
- MdTable.MdRow.Restore: the name array is a value inside the row object; OctetColumn has the same save, overwrite and restore on an array.
- MdTable.MdMapper.SetReserve2: the row-status transition check of RESERVE1 and its per-type checks, most of which look at the first varbind only, are taken as passed; table indices are naturals.
- MdTable.MdMapper.SetPdu: rows are garbage-collected objects; the reclamation of removed rows and of rollback buffers, and so any use after free, is not modelled.
- MEP columns of fixed size: their saved length is never set, so UNDO restores nothing; they are outside the rollback theorem.
- The remaining mapper tables of the CFM, PBB and PBB-TE modules repeat the pattern of the two modelled.
- PortHal.PortRow.HalUpdate: hardware registers are one bit, enabled or not; a failed call is taken to have no effect.
- RowStatus.RefinesTwoBits: a parent whose lookup of a child is short of memory skips the child; the theorem is about events that reach the row.
- RowStatus.VipActiveIff: the same of events that do not reach the VIP; and the check for a nonzero backbone destination address is part of one readiness bit that changes only with the mapping.
- Edge-port update, CBP service-mapping lookup, PEP secondary index, PIP physical-port creation, the CNP check of C-component and S-VID: their guards are unfinished in the code, and nothing strong holds of them.
- createHier and removeHier pairs, and the internal-LAN service tables: their cleanup may remove objects that were there before; no rollback claim is made.
- OrderedIndex.Tree.NodeAdd: the balanced tree inside xBTree is not part of this model; an ascending sequence with its contract stands for it.
- Direct SNMP writes to the VIP bitmap, GET encoding, object-identifier tables, traps, locks, threads, logging and module start-up.
- xIeeeCrc32 is a stub.
