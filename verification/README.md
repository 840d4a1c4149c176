# Paddio club dashboard — a Dafny model of its logic

The Paddio club dashboard is a React admin panel for a padel club. Club staff use it to see
the day's turns on a four-position board, to edit the players of a pregame turn, to browse
the turn calendar, the pending turns, the turn history and the match list, to read
notifications, to export lists as CSV or spreadsheet files, and to read club statistics.

This project models the synchronous logic behind those screens as pure Dafny functions over
immutable datatypes. Every list the dashboard fetches from its backend is an input value:
turns, courts, invitations, notifications and matches. Dates are integer day numbers counted
from 1970-01-01. "Today", the first and last day of the displayed month and the start of the
revenue window are parameters.

Modules, one per source file or concern:

| module | models |
|---|---|
| `Wrappers`, `Strings`, `Lists`, `Sorting`, `Dates` | `Option`; JavaScript string operations (`split`, `join`, `padStart`, `trim`, `parseInt`, ASCII case mapping); filter, count and map; `Array.prototype.sort` as a stable insertion sort; civil dates and `getDay` |
| `Domain` | the fetched records (`src/types/*.ts`), `countPlayers` and `getTurnPrice` |
| `DaySection` | the "turnos del día" board: layout, side/stroke change, drag and drop, remove, clear, add |
| `Statistics` | `getClubStatistics` and its reductions |
| `TurnDetail` | the turn detail page: invitations per player field, add/remove player updates, save, cancel |
| `CsvExport` | `escapeCSVValue`, `convertToCSV`, file names and spreadsheet column widths, plus a CSV reader as the serialiser's partner |
| `Calendar`, `TurnSearch`, `PendingTurns`, `History`, `Matches`, `Notifications` | the list pages |
| `CreateTurn`, `ChangePassword`, `Login` | the forms and their validators |
| `TurnService` | the query parameters of the turn service |
| `Breadcrumbs`, `Pickers`, `RouteGuard`, `MainLayout`, `PushNotifications` | the common components, the layout and the notification hook |

## Model

| member | source | states |
|---|---|---|
| Domain.CountPlayers | src/pages/TurnoDetalle.tsx:536-544 | the number of set player fields lies in 0..4; it is 0 exactly when no field is set and 4 exactly when all are |
| Domain.TurnPrice | src/pages/TurnoDetalle.tsx:486-497 | the turn's own price when positive, else the club's positive price, else nothing; the result is never a non-positive number |
| DaySection.AsignarLadosYRoles | src/sections/TurnosDelDiaSection.tsx:22-30 | keeps the first four players in order with their names and avatars, and puts the i-th player in the i-th canonical position |
| DaySection.AsignarDistinct | src/sections/TurnosDelDiaSection.tsx:23-28 | no two laid-out players share a position |
| DaySection.AsignarIdempotent | src/sections/TurnosDelDiaSection.tsx:22-30 | laying out an already laid-out list again changes nothing |
| DaySection.IndexOfName | src/sections/TurnosDelDiaSection.tsx:187-188 | the first player with the given name, or nothing exactly when no player has it |
| DaySection.IndexAt | src/sections/TurnosDelDiaSection.tsx:211 | the first player standing at the given position, or nothing exactly when none does |
| DaySection.CambiarEnTurno | src/sections/TurnosDelDiaSection.tsx:184-231 | the turn keeps its id, time, status, renter, length and names; an absent name leaves the turn unchanged |
| DaySection.MapTurnos | src/sections/TurnosDelDiaSection.tsx:185-186 | turns with another id are untouched; the chosen turn gets the edit |
| DaySection.CambiarLadoORol | src/sections/TurnosDelDiaSection.tsx:184-231 | only turns with the given id change, each by the one-turn edit |
| DaySection.CambiarLadoOnlyMover | src/sections/TurnosDelDiaSection.tsx:190-208 | a side change moves only the named player; the occupant of the target position stays as it was |
| DaySection.CambiarLadoCanCollide | src/sections/TurnosDelDiaSection.tsx:198-199 | because of that, a side change can leave two players in one position |
| DaySection.CambiarRolSwaps | src/sections/TurnosDelDiaSection.tsx:210-227 | a stroke change onto an occupied position swaps strokes, sides stay and nobody else changes; with no occupant only the mover changes |
| DaySection.CambiarSameValue | src/sections/TurnosDelDiaSection.tsx:192-218 | setting a side or stroke to its current value changes nothing |
| DaySection.Slot | src/sections/TurnosDelDiaSection.tsx:245 | a slot holds a player standing at that slot's canonical position, or nothing exactly when no player stands there |
| DaySection.MoverEnJugadores | src/sections/TurnosDelDiaSection.tsx:242-264 | length, names and avatars are kept; an empty source slot or a source index outside 0..3 changes nothing |
| DaySection.MoverJugadorDnD | src/sections/TurnosDelDiaSection.tsx:242-264 | only the turn with the given id changes, by the drag on its players |
| DaySection.MoverExchanges | src/sections/TurnosDelDiaSection.tsx:251-256 | dropping on an occupied slot exchanges the two players' positions exactly and moves nobody else |
| DaySection.MoverToEmpty | src/sections/TurnosDelDiaSection.tsx:257-260 | dropping on an empty slot moves only the dragged player |
| DaySection.MoverSameSlot | src/sections/TurnosDelDiaSection.tsx:242-264 | dropping a player on its own slot changes nothing |
| DaySection.EstadoPorCantidad | src/sections/TurnosDelDiaSection.tsx:294 | the status is libre exactly for 0 players and completo exactly for 4 |
| DaySection.SinNombre | src/sections/TurnosDelDiaSection.tsx:293 | exactly the players without that name, as a subsequence in their original order; nothing changes when the name is absent |
| DaySection.SinNombreAppend | src/sections/TurnosDelDiaSection.tsx:293 | the filter distributes over concatenation, by induction |
| DaySection.SinNombreDropsOne | src/sections/TurnosDelDiaSection.tsx:293 | on a board with distinct names that holds the name, exactly one player goes |
| DaySection.RemoveEnTurno | src/sections/TurnosDelDiaSection.tsx:288-299 | the survivors are the other players in their order (name and avatar), laid out again from slot 0; the status follows the old count minus one, libre exactly when it was 1; the renter is cleared exactly then, or when there was none, and kept otherwise |
| DaySection.RemovePresentStatusMatches | src/sections/TurnosDelDiaSection.tsx:288-299 | removing a present player from a board with distinct names drops one player and the status matches the remaining count |
| DaySection.HandleRemoveJugador | src/sections/TurnosDelDiaSection.tsx:288-299 | only the turn with the given id changes, by the removal |
| DaySection.RemoveRelaysOut | src/sections/TurnosDelDiaSection.tsx:293 | removing the first of two players moves the second to slot 0: survivors do not keep their slots |
| DaySection.RemoveAbsentName | src/sections/TurnosDelDiaSection.tsx:294 | removing a name nobody has from a full board keeps the players but drops the status to incompleto |
| DaySection.HandleConfirmClean | src/sections/TurnosDelDiaSection.tsx:307-317 | only the chosen turn loses its players, status and renter; with no turn chosen nothing changes |
| DaySection.SpliceIndex | src/sections/TurnosDelDiaSection.tsx:332 | the insertion index never passes the end of the list, and an index inside the list is used as is |
| DaySection.Splice | src/sections/TurnosDelDiaSection.tsx:331-332 | the new element sits at the clamped index with the old elements before and after it in order |
| DaySection.Inicial | src/sections/TurnosDelDiaSection.tsx:332 | the avatar is the name's first character, or empty for an empty name |
| DaySection.AddEnTurno | src/sections/TurnosDelDiaSection.tsx:325-339 | the other players with the newcomer spliced in at the `splice` index, cut to four and laid out from slot 0; the status follows that count and is never libre; an existing renter is kept, otherwise the newcomer rents |
| DaySection.AddThenRemoveRestores | src/sections/TurnosDelDiaSection.tsx:288-339 | on a board with room and canonical positions, adding a new name and then removing it gives back the same players and the status of their count |
| DaySection.HandleAddJugador | src/sections/TurnosDelDiaSection.tsx:325-343 | only the turn with the given id changes, by the addition |
| DaySection.AddPlacesPlayer | src/sections/TurnosDelDiaSection.tsx:329-333 | adding keeps names unique, and when the clamped index is a slot the newcomer stands there |
| DaySection.AddToFullBoard | src/sections/TurnosDelDiaSection.tsx:333-336 | adding in front of a full board pushes the last player off, and the status says incompleto although four players remain |
| Statistics.ClubCourts | src/services/statistics.ts:27-28 | exactly the courts of the club |
| Statistics.CountCourts | src/services/statistics.ts:28-30 | available plus maintenance is the total; maintenance counts the unavailable courts and is 0 exactly when all are available |
| Statistics.ComputeTodayStats | src/services/statistics.ts:33-40 | each field counts the turns of its status and the total counts all; completed plus ready equals the earning turns, and the four never exceed the total |
| Statistics.TodayStatsAppend | src/services/statistics.ts:33-40 | today's counts over two lists are the field-wise sums of each list's counts |
| Statistics.StatusCountsBounded | src/services/statistics.ts:33-40 | the same two facts over any list of turns, proved by induction |
| Statistics.MonthTurns | src/services/statistics.ts:51-55 | exactly the dated turns on or after the month start |
| Statistics.PlayerIds | src/services/statistics.ts:64-70 | an id is in the set exactly when it is a truthy id of some turn |
| Statistics.PlayerIdsBound | src/services/statistics.ts:64-70 | a list of turns has at most four players per turn |
| Statistics.UniquePlayers | src/services/statistics.ts:64-70 | the number of distinct truthy player ids over the turns: at most four times the number of turns, positive exactly when some turn has a truthy player id |
| Statistics.PlayerIdsAppend | src/services/statistics.ts:64-70 | the players of two lists together are the union of each list's players |
| Statistics.UniquePlayersOrderFree | src/services/statistics.ts:64-70 | reordering the turns keeps the count of distinct players |
| Statistics.UniquePlayersGrow | src/services/statistics.ts:64-70 | adding turns never lowers the count of distinct players |
| Statistics.BucketOf | src/services/statistics.ts:116-118 | JavaScript's Sunday goes to the last bucket and every other weekday to its number minus one |
| Statistics.Buckets | src/services/statistics.ts:105-126 | seven counters |
| Statistics.BucketsCount | src/services/statistics.ts:113-120 | each counter counts the dated turns of its weekday |
| Statistics.OccupancyByDayOfWeek | src/services/statistics.ts:105-126 | seven entries, Lunes to Domingo, each counting the dated turns of that weekday |
| Statistics.OccupancySum | src/services/statistics.ts:105-126 | the counters add up to the number of dated turns |
| Statistics.RevenueMapCount | src/services/statistics.ts:134-144 | each day's entry is the price times the number of earning turns dated that day, on or after the window start |
| Statistics.Series | src/services/statistics.ts:146-157 | one entry per day from the start to today, inclusive, with no gaps |
| Statistics.RevenueByDay | src/services/statistics.ts:128-158 | every day from the start to today, each with the price times that day's earning turns |
| Statistics.RevenueBeforeMonthIsZero | src/services/statistics.ts:76 | fed only the month's turns, the series is zero on every day before the month |
| Statistics.UsageKeys | src/services/statistics.ts:166-175 | the truthy court ids used by some turn, in ascending order |
| Statistics.PickMaxSpec | src/services/statistics.ts:175-180 | the scan ends with a count that bounds every key, and its winner is the first key to reach that count |
| Statistics.MostUsedId | src/services/statistics.ts:160-180 | nothing exactly when no turn names a court; otherwise a court whose count is maximal, every lower id having a strictly smaller count |
| Statistics.FindCourt | src/services/statistics.ts:183 | a court with the id, or nothing exactly when the list has none |
| Statistics.CalculateMostUsedCourt | src/services/statistics.ts:160-194 | the most used court with its count, lowest id on a tie; nothing when no turn names a court or the winner is not in the court list |
| Statistics.TallySpec | src/services/statistics.ts:196-208 | one entry per distinct key, each positive and equal to the key's occurrences, the counts adding up to the number of keys |
| Statistics.TurnsByStatus | src/services/statistics.ts:196-208 | one entry per distinct status (missing read as UNKNOWN), in order of first appearance among the turns, each with its positive number of turns, the counts adding up to the number of turns |
| Statistics.TallyOrder | src/services/statistics.ts:196-208 | the histogram lists its keys in the order of their first occurrence, as `Object.entries` lists string keys in insertion order |
| Statistics.GenerateAlerts | src/services/statistics.ts:210-254 | exactly one alert per condition that holds: a maintenance warning first exactly when some court is unavailable, a pending notice (the only one of severity info) last exactly when some PENDING turn is dated today or tomorrow, each carrying its count |
| Statistics.AlertsIgnoreQuietInputs | src/services/statistics.ts:210-254 | adding available courts and turns that are not pending soon changes no alert |
| Statistics.GetClubStatistics | src/services/statistics.ts:8-101 | the aggregate: the courts in maintenance are the club's unavailable courts and the rest are available, today's counts and the alerts come from today's turns, revenues are earning turns times the price (a missing price is 0), the month's distinct players, the weekday histogram, revenue per day and status counts of the month's turns, and the most used court of today |
| TurnDetail.PendingInvitations | src/pages/TurnoDetalle.tsx:204-214 | exactly the PENDING invitations for players not in the turn |
| TurnDetail.InvitationFor | src/pages/TurnoDetalle.tsx:225-226 | the first invitation to that player in list order, or nothing exactly when none exists |
| TurnDetail.EmptyBefore | src/pages/TurnoDetalle.tsx:229 | the number of empty fields before an index is at most the index |
| TurnDetail.PositionsWithInvitations | src/pages/TurnoDetalle.tsx:198-235 | four entries in field order; an occupied field shows the first invitation for its player; the k-th empty field shows the k-th pending invitation, if any |
| TurnDetail.EmptySlotsShareNoInvitation | src/pages/TurnoDetalle.tsx:227-231 | with distinct invitation ids, no two empty fields show the same invitation |
| TurnDetail.HasEmptySlotsIff | src/pages/TurnoDetalle.tsx:238-243 | a really empty field exists exactly when the empty fields outnumber the pending invitations |
| TurnDetail.InvitationLabel | src/pages/TurnoDetalle.tsx:499-516 | the label is empty exactly when there is no invitation |
| TurnDetail.InvitationColor | src/pages/TurnoDetalle.tsx:518-534 | 'warning' exactly for a pending invitation, 'default' exactly for none |
| TurnDetail.FirstEmpty | src/pages/TurnoDetalle.tsx:425-433 | the first field without a truthy id, or nothing exactly when all four are set |
| TurnDetail.HandleAddPlayer | src/pages/TurnoDetalle.tsx:421-443 | the id goes into the first empty field and nothing else is written; a full turn is refused with 'El turno ya está completo' |
| TurnDetail.AddPlayerFillsOneField | src/pages/TurnoDetalle.tsx:421-443 | applied to a turn with room, the update adds exactly one player |
| TurnDetail.FieldOf | src/pages/TurnoDetalle.tsx:449-465 | the first field holding the player, or nothing exactly when none does |
| TurnDetail.HandleRemovePlayer | src/pages/TurnoDetalle.tsx:445-470 | the first field holding the player is cleared; when none holds it the empty update is still sent |
| TurnDetail.RemovePlayerEmptiesOneField | src/pages/TurnoDetalle.tsx:445-470 | applied, the update removes exactly one player |
| TurnDetail.Apply | src/pages/TurnoDetalle.tsx:421-470 | a set player key writes that id and a cleared one writes none, leaving the slot's other fields; present time and court keys overwrite; every other field is kept |
| TurnDetail.HandleSaveChanges | src/pages/TurnoDetalle.tsx:390-411 | date, start time and court are sent only when each is given and differs from the turn; with no difference nothing is sent |
| TurnDetail.SaveUnchangedSendsNothing | src/pages/TurnoDetalle.tsx:390-411 | saving the values the form opened with sends nothing |
| TurnDetail.CancellableInvitations | src/pages/TurnoDetalle.tsx:954-964 | only pending invitations; all of them for the organizer or a club admin, otherwise exactly the ones the user sent |
| TurnDetail.HandleCancelTurn | src/pages/TurnoDetalle.tsx:413-419 | a blank reason is refused; any other reason is sent as typed |
| TurnDetail.CountBatch | src/pages/TurnoDetalle.tsx:299-310 | `successful` is the number of fulfilled requests and `failed` the number of rejected ones; they sum to the total, and nothing failed exactly when every request was fulfilled |
| Lists.CountIsMultiplicity | src/pages/TurnoDetalle.tsx:306-307 | counting with a condition that picks out one value gives that value's number of occurrences |
| CsvExport.DoubleQuotes | src/utils/export.ts:38 | never shorter than the text, and a text without quotes is unchanged |
| CsvExport.EscapeText | src/utils/export.ts:35-41 | a text that needs no quotes is unchanged; one that does is wrapped in quotes |
| CsvExport.Escape | src/utils/export.ts:30-42 | null and undefined give the empty field, and the field is empty exactly when the value's text is |
| CsvExport.LoneCarriageReturnUnquoted | src/utils/export.ts:37 | a lone carriage return does not cause quoting |
| Lists.Firsts | src/utils/export.ts:14 | the keys of an entry list (a row's `Object.keys`), in insertion order, one per entry |
| CsvExport.GetMissing | src/utils/export.ts:19 | a key the row lacks reads as nullish, hence as the empty field |
| CsvExport.GetFirst | src/utils/export.ts:19 | a key is read from its first entry |
| CsvExport.Table | src/utils/export.ts:14-22 | the first row's keys, then every row's texts under those keys |
| CsvExport.ConvertToCsv | src/utils/export.ts:9-25 | empty input gives the empty text; otherwise the table's records joined by line feeds |
| CsvExport.LinesOfTable | src/utils/export.ts:15-24 | the header and data lines are the escaped records of the table |
| CsvExport.ReadFieldEscaped | src/utils/export.ts:35-41 | reading an escaped field gives back the original text, whatever follows it (section 2 of RFC 4180, rules 6 and 7) |
| CsvExport.ParseSerialized | src/utils/export.ts:24 | parsing serialised records gives them back |
| CsvExport.ConvertToCsvRoundTrip | src/utils/export.ts:9-25 | reading an export gives back the header keys and every cell text |
| CsvExport.SerializeInjective | src/utils/export.ts:24 | two record lists with the same serialisation are equal |
| CsvExport.EnsureExtension | src/utils/export.ts:52 | the name ends with the extension, which is appended only when missing |
| CsvExport.EnsureExtensionIdempotent | src/utils/export.ts:105 | appending the extension twice is appending it once |
| CsvExport.ExportToCsv | src/utils/export.ts:62-70 | nothing for an empty list; otherwise a '.csv' file whose content reads back as the table |
| CsvExport.LongestCell | src/utils/export.ts:88-90 | the length of the longest cell under a key, falsy cells counting as empty |
| CsvExport.ColumnWidth | src/utils/export.ts:85-92 | two more than the longest of the key and its cells, capped at 50 |
| CsvExport.ExportToExcel | src/utils/export.ts:75-93 | nothing for an empty list; otherwise a '.xlsx' name and one width per key of the first row |
| Calendar.MonthTurns | src/pages/TurnosCalendar.tsx:94-101 | exactly the turns dated in the displayed month |
| Calendar.FilteredTurns | src/pages/TurnosCalendar.tsx:104-112 | cancelled turns are dropped before the court and status filters, so filtering on CANCELLED gives nothing |
| Calendar.TurnsByDate | src/pages/TurnosCalendar.tsx:115-126 | each day's entry is that day's turns in input order, and every dated turn has an entry |
| Calendar.TurnOnItsOwnDay | src/pages/TurnosCalendar.tsx:148-151 | a dated turn is found under its own day and under no other |
| Calendar.DateClick | src/pages/TurnosCalendar.tsx:138-146 | a day with exactly one turn selects it; otherwise the selection is kept |
| Calendar.DayColor | src/pages/TurnosCalendar.tsx:183-195 | transparent exactly for no turns; otherwise the ready, pending or completed colour by priority, never the cancelled one |
| Calendar.DayCellOf | src/pages/TurnosCalendar.tsx:437-457 | at most two chips, the first turns of the day, and a '+n más' note exactly when there are more than two |
| Calendar.CourtName | src/pages/TurnosCalendar.tsx:164-168 | the turn's own non-empty court name first, else the first serving court's non-empty name, else 'N/A'; never an empty name |
| Calendar.FindCourtFor | src/pages/TurnosCalendar.tsx:166 | the first court in list order matching the turn's court or selected court, or nothing exactly when none does |
| Calendar.ChipLabel | src/pages/TurnosCalendar.tsx:442 | starts with the start time and ends with the court name |
| TurnSearch.SortEarliestFirst | src/pages/TurnosPendientes.tsx:62-67 | with every turn dated, the sort keeps every turn and orders them earliest first |
| TurnSearch.SortNewestFirst | src/pages/TurnosHistorial.tsx:124-129 | with every turn dated, the sort keeps every turn and orders them newest first |
| PendingTurns.PendingList | src/pages/TurnosPendientes.tsx:44-59 | exactly the PENDING turns that match the search; an empty query keeps all of them in order |
| PendingTurns.SortedPending | src/pages/TurnosPendientes.tsx:62-67 | a permutation, earliest first when every turn is dated |
| PendingTurns.PlayersNeeded | src/pages/TurnosPendientes.tsx:70-82 | players present plus players needed is four |
| PendingTurns.IsTurnNearDate | src/pages/TurnosPendientes.tsx:84-93 | false without a date; on a PENDING turn it agrees with the dashboard's pending-alert test |
| PendingTurns.CountChipColor | src/pages/TurnosPendientes.tsx:259 | 'success' exactly when the turn is full, 'warning' otherwise |
| PendingTurns.NeededLabel | src/pages/TurnosPendientes.tsx:278 | 'Faltan n jugador', with 'es' exactly when n is not 1 |
| History.HistoricalTurns | src/pages/TurnosHistorial.tsx:91-96 | exactly the COMPLETED and CANCELLED turns |
| History.FilteredHistory | src/pages/TurnosHistorial.tsx:99-121 | every kept turn matches the status, court, date bounds and search; every turn meeting them is kept |
| History.UndatedPassesDateRange | src/pages/TurnosHistorial.tsx:108-109 | an undated turn passes every date bound |
| History.SortedHistory | src/pages/TurnosHistorial.tsx:124-129 | a permutation, newest first when every turn is dated |
| History.HistoryFields | src/pages/TurnosHistorial.tsx:132-140 | seven texts: the date, start and end joined by ' - ', the court name or 'N/A', the status label or empty, the players count or 0, and both prices '$'-prefixed when the price is non-zero, 'N/A' otherwise |
| History.HistoryCsvAsWritten | src/pages/TurnosHistorial.tsx:131-145 | throws exactly for an empty history; otherwise starts with the plain header line |
| History.EmptyHistoryExportThrows | src/pages/TurnosHistorial.tsx:142 | exporting an empty history throws |
| History.PlainLineColumns | src/pages/TurnosHistorial.tsx:144 | a plainly joined line splits into one more piece per comma inside its values |
| History.CommaInCourtNameShiftsColumns | src/pages/TurnosHistorial.tsx:135 | a court name holding a comma makes the row split into more than seven columns |
| History.HistoryTable | src/pages/TurnosHistorial.tsx:132-140 | the header, then one record of seven texts per turn |
| History.HistoryCsv | src/pages/TurnosHistorial.tsx:141-145 | nothing for an empty history; otherwise a text that reads back as the table |
| History.HistoryCsvAgreesWithoutSpecialCharacters | src/pages/TurnosHistorial.tsx:141-145 | when no value needs quotes, the intended export is exactly the written one |
| Matches.TermSpansTwoNames | src/pages/Partidos.tsx:101-103 | a search term can match across two adjacent player names |
| Matches.FilteredMatches | src/pages/Partidos.tsx:94-113 | the search filter then the court filter is one filter by "meets both", so exactly the matches meeting the search and court filter, in their list order; no filter keeps the list |
| Matches.TwoFiltersKeep | src/pages/Partidos.tsx:94-113 | the two filters in a row, whichever of them apply, keep the same matches in the same order as one filter by both conditions |
| Lists.FilterFilterAs | src/pages/Partidos.tsx:94-113 | two `filter` calls in a row equal one `filter` by a condition holding exactly when both do |
| Matches.Put | src/pages/Partidos.tsx:120 | an existing key keeps its place and takes the new name; a new key goes last |
| Matches.CourtOptions | src/pages/Partidos.tsx:116-124 | one entry per court id named by some match, in first-seen order, with the last match's name |
| Matches.Slice | src/pages/Partidos.tsx:129 | JavaScript `slice` with both bounds clamped to the list |
| Matches.Page | src/pages/Partidos.tsx:127-130 | at most `rows` entries, taken from index page·rows on |
| Matches.PagesArePrefix | src/pages/Partidos.tsx:127-130 | the first n pages in order are the list up to entry n·rows |
| Matches.PagesCoverList | src/pages/Partidos.tsx:127-131 | enough pages cover the whole list, each entry once |
| Matches.ChangeRowsPerPage | src/pages/Partidos.tsx:368-371 | changing the page size goes back to page 0 |
| Matches.MatchStatusLabel | src/pages/Partidos.tsx:60-66 | an unknown status is shown as is |
| Matches.MatchStatusColor | src/pages/Partidos.tsx:52-58 | an unknown status gets 'default' |
| Matches.PlayersLabel | src/pages/Partidos.tsx:340 | 'n jugador', with 'es' exactly when n is not 1 |
| Notifications.TypeLabel | src/pages/Notificaciones.tsx:43-51 | an unknown type is shown as is; a known one gets its own non-empty label |
| Notifications.TypeColor | src/pages/Notificaciones.tsx:53-61 | 'default' exactly for an unknown type |
| Notifications.Sections | src/pages/Notificaciones.tsx:153-155 | unread and read lists partition the notifications, each element once, each list keeping the order of the fetched list |
| Lists.FilterSubseq | src/pages/Notificaciones.tsx:154-155 | `filter` keeps its elements in their original order |
| Notifications.UnreadCounter | src/pages/Notificaciones.tsx:185-197 | shown exactly for a positive count, with an 's' exactly when the count is not 1 |
| Notifications.ViewDetails | src/pages/Notificaciones.tsx:113-120 | opening marks the notification read exactly when it was unread |
| Notifications.TurnLink | src/pages/Notificaciones.tsx:615-622 | the button appears exactly for a truthy turn id and leads to /turnos/<id> |
| CreateTurn.Distinct | src/pages/TurnosCrear.tsx:76 | the same elements, each once |
| CreateTurn.AvailableTimes | src/pages/TurnosCrear.tsx:70-78 | nothing without a template; otherwise the template's times, each once, in strictly ascending order |
| CreateTurn.SubmitParams | src/pages/TurnosCrear.tsx:154-166 | restriction type only when restricted, free category only when mixed, empty texts and false flags absent |
| CreateTurn.HandleSubmit | src/pages/TurnosCrear.tsx:138-166 | submitted exactly when the form is complete, the club is known and both checks hold; otherwise the first failing check's message |
| CreateTurn.ButtonEnabled | src/pages/TurnosCrear.tsx:383 | enabled exactly when all three checks hold and no creation is pending |
| CreateTurn.ButtonAgreesWithSubmit | src/pages/TurnosCrear.tsx:138-152 | for a known club, the idle button is enabled exactly when a click submits |
| CreateTurn.EnabledButtonSubmits | src/pages/TurnosCrear.tsx:138-152 | with the button enabled, a click submits exactly when the club is known |
| CreateTurn.SubmittedQueryHasNoFalseFlag | src/pages/TurnosCrear.tsx:161-164 | a submission never sends a flag as 'false' |
| CreateTurn.SetCategoryRestricted | src/pages/TurnosCrear.tsx:295-300 | turning the restriction off resets its type to NONE; nothing else changes |
| CreateTurn.SetMixedMatch | src/pages/TurnosCrear.tsx:326-337 | turning mixed on lifts the restriction and gives a 'Masculino' organizer's category (default '9na') as the free category; turning it off clears it |
| CreateTurn.MixedOnForManIsValid | src/pages/TurnosCrear.tsx:125-130 | turning mixed on for a 'Masculino' organizer leaves a form passing both checks |
| ChangePassword.Validate | src/pages/ChangePassword.tsx:27-52 | each field's error and message; an equal new password always gets the 'debe ser diferente' message |
| ChangePassword.IsValid | src/pages/ChangePassword.tsx:50-51 | valid exactly when there is no error key |
| ChangePassword.ValidIff | src/pages/ChangePassword.tsx:27-52 | accepted exactly when the current password is given, the new one has at least six characters and differs, and the confirmation repeats it |
| ChangePassword.SamePasswordRefused | src/pages/ChangePassword.tsx:46-48 | reusing the current password is always refused with that message |
| ChangePassword.HandleSubmit | src/pages/ChangePassword.tsx:54-63 | the request is sent exactly when the form is valid |
| ChangePassword.OnFailure | src/pages/ChangePassword.tsx:67-74 | a message reporting a wrong current password becomes the only error, on that field |
| Login.Validate | src/pages/Login.tsx:54-69 | an e-mail error exactly when it is empty or fails the pattern; a password error exactly when it is empty |
| Login.AcceptedEmailHasAtAndDot | src/pages/Login.tsx:59 | an accepted e-mail has an '@' with a '.' after it |
| Login.PatternUnanchored | src/pages/Login.tsx:59 | text around a matching address does not matter |
| Login.SpaceBeforeAtRefused | src/pages/Login.tsx:59 | white space right before the only '@' breaks the pattern ("a @b.c" is refused) |
| Login.SpaceBeforeEveryAtRefused | src/pages/Login.tsx:59 | a text whose every '@' opens it or follows white space never matches, since `\S+` must reach the '@' from the left |
| Login.ShortestAccepted | src/pages/Login.tsx:59 | 'a@b.c' is accepted |
| Login.IsValid | src/pages/Login.tsx:67-68 | valid exactly when the e-mail is given and matches and the password is given |
| Login.HandleSubmit | src/pages/Login.tsx:71-82 | an invalid form never calls login; a valid one sends the e-mail as the username |
| Login.ReturnPath | src/pages/Login.tsx:100 | the page that sent the user to login, or '/' |
| Login.AfterLogin | src/pages/Login.tsx:86-114 | the password-change page when required, otherwise the return path |
| Login.FailureMessage | src/pages/Login.tsx:116-117 | the backend's detail, else the error's message, else a default, never empty |
| Login.OnFailure | src/pages/Login.tsx:120-124 | a message mentioning 'incorrect' becomes a single password error; other messages keep the errors |
| RouteGuard.Decide | src/components/common/ProtectedRoute.tsx:18-48 | spinner exactly while loading; login with the location exactly for a visitor (a visitor already on /login is sent there too); never redirects /change-password to itself |
| RouteGuard.ChangePasswordPageRenders | src/components/common/ProtectedRoute.tsx:39-48 | an authenticated user at /change-password is never sent away |
| RouteGuard.RedirectSettles | src/components/common/ProtectedRoute.tsx:39-46 | following a redirect of an authenticated user leads to a page the guard lets through |
| Breadcrumbs.Segments | src/components/common/Breadcrumbs.tsx:21 | segments are non-empty and hold no '/' |
| Breadcrumbs.SegmentLabel | src/components/common/Breadcrumbs.tsx:27-30 | dashes become spaces and each word's first character is upper-cased |
| Breadcrumbs.Trail | src/components/common/Breadcrumbs.tsx:24-32 | one item per segment with its label and the path so far |
| Breadcrumbs.BreadcrumbItems | src/components/common/Breadcrumbs.tsx:20-35 | given items verbatim; otherwise 'Inicio' at '/' and one item per segment |
| Breadcrumbs.GeneratedPathsExtend | src/components/common/Breadcrumbs.tsx:26 | each generated path extends the previous one by '/' and the next segment |
| Breadcrumbs.GeneratedAllLinksButLast | src/components/common/Breadcrumbs.tsx:44-46 | in a generated trail every item but the last is a link |
| Pickers.SetHours | src/components/common/TimePicker.tsx:26 | an hour or minute read as NaN gives an invalid date; otherwise the time of day rolls over modulo 24 hours |
| Pickers.ParseTime | src/components/common/TimePicker.tsx:23-28 | no date exactly for a null or empty value |
| Pickers.FormatTime | src/components/common/TimePicker.tsx:30-38 | null exactly for no pick; otherwise 'HH:MM' padded to two digits |
| Pickers.TimeRoundTrip | src/components/common/TimePicker.tsx:23-34 | a well-formed, in-range 'HH:MM' comes back unchanged |
| Pickers.BoundText | src/components/common/DatePicker.tsx:23-37 | no bound without a date; otherwise 'YYYY-MM-DD' for four-digit years |
| Pickers.DateChange | src/components/common/DatePicker.tsx:39-42 | an empty input gives null; anything else passes through |
| Pickers.DateDisplay | src/components/common/DatePicker.tsx:48 | null is displayed as the empty text |
| Pickers.DateInputRoundTrip | src/components/common/DatePicker.tsx:39-48 | what the input shows comes back unchanged |
| TurnService.TurnListParams | src/services/pregameTurns.ts:10-13 | `target_date` is sent exactly when a non-empty date is given |
| TurnService.CreateQuery | src/services/pregameTurns.ts:55-67 | the five required parameters in order, then each sent optional one in fixed order, each with its value |
| TurnService.OptionalKeysFilter | src/services/pregameTurns.ts:62-67 | the optional keys sent are the sent ones among the fixed list, in order |
| TurnService.FalseFlagIsSent | src/services/pregameTurns.ts:64 | a defined false flag is sent as 'false' |
| TurnService.NoFalseFlagSent | src/services/pregameTurns.ts:64-66 | flags that are absent or true never reach the query as 'false' |
| MainLayout.ClubCourts | src/layouts/MainLayout.tsx:48-58 | empty without a club; otherwise exactly the club's courts |
| MainLayout.NoCourtsWarning | src/layouts/MainLayout.tsx:75 | the warning shows exactly when there is no club or no court belongs to it |
| MainLayout.TurnCountWith | src/layouts/MainLayout.tsx:80-85 | the badge number is the number of positions holding an unread turn-related notification; 0 when nothing was fetched, and 0 exactly when no such notification exists |
| Lists.CountIndices | src/layouts/MainLayout.tsx:80-85 | `filter(p).length` equals the number of positions whose element satisfies `p` |
| MainLayout.TurnCompletedMissed | src/layouts/MainLayout.tsx:79 | an unread 'turn_completed' notification is missed by the list as written: the program's menu shows no Turnos badge, the corrected one shows 1 |
| MainLayout.CorrectionOnlyAdds | src/layouts/MainLayout.tsx:79-85 | the corrected list counts at least what the written one does |
| MainLayout.CorrectedMenu | src/layouts/MainLayout.tsx:164-238 | the side menu with the corrected type list: the Turnos badge counts 'turn_completed' too |
| MainLayout.CorrectedTurnsBadgeShown | src/layouts/MainLayout.tsx:168 | in the corrected menu the Turnos badge shows exactly when a notification counts under the corrected list |
| MainLayout.CorrectedMenuOnlyAddsBadge | src/layouts/MainLayout.tsx:79-85 | the corrected menu differs from the program's at most in the Turnos badge, which it shows whenever the program does |
| MainLayout.AtMostOneSelected | src/layouts/MainLayout.tsx:170-172 | no two menu entries are selected at once |
| MainLayout.TurnsSubpageSelectsTurnos | src/layouts/MainLayout.tsx:170-172 | every path under '/turnos' selects Turnos and nothing else |
| MainLayout.Entry | src/layouts/MainLayout.tsx:164-238 | badges only with a positive count, on Turnos and Notificaciones; the courts warning only on Canchas |
| MainLayout.Menu | src/layouts/MainLayout.tsx:164-238 | the side menu as written: one entry per menu item, in order, the Turnos badge counting with the type list as written |
| MainLayout.TurnsBadgeShown | src/layouts/MainLayout.tsx:168 | in the program's menu the Turnos badge shows exactly when an unread notification counts under the type list as written |
| MainLayout.FindByPath | src/layouts/MainLayout.tsx:335 | the first entry whose path is the location, or nothing exactly when none is |
| MainLayout.MenuPathsDistinct | src/layouts/MainLayout.tsx:30-37 | menu paths are distinct and every caption is non-empty |
| MainLayout.HeaderTitle | src/layouts/MainLayout.tsx:333-335 | 'Dashboard' at '/', the exact-path entry's text, otherwise 'Paddio Club' |
| MainLayout.TurnDetailTitle | src/layouts/MainLayout.tsx:333-335 | a turn page selects Turnos but shows the club title |
| PushNotifications.NewNotifications | src/hooks/usePushNotifications.ts:39-46 | exactly the unread notifications not yet processed |
| PushNotifications.Announce | src/hooks/usePushNotifications.ts:69-109 | an important notification asks for interaction, is tagged '<type>_<id>' and stays 10 s; others are tagged 'notification_<id>' and stay 5 s |
| PushNotifications.Detect | src/hooks/usePushNotifications.ts:36-111 | nothing changes without new notifications; otherwise their ids join the processed set and the important ones are announced first |
| PushNotifications.DetectAnnouncesEachOnce | src/hooks/usePushNotifications.ts:60-110 | every new notification is announced exactly once and nothing else is |
| PushNotifications.ProcessedNotAnnounced | src/hooks/usePushNotifications.ts:52-55 | processed ids are never announced again, and announced ids are remembered |
| PushNotifications.OnAuthChange | src/hooks/usePushNotifications.ts:114-118 | the processed set is emptied when not authenticated |
| PushNotifications.Session | src/hooks/usePushNotifications.ts:36-55 | one announcement list per fetch, and the processed set only grows |
| PushNotifications.SessionAnnouncesOnce | src/hooks/usePushNotifications.ts:44-55 | within a session no id is announced by two fetches |
| Sorting.SortSorted | src/pages/TurnosPendientes.tsx:63-66 | under a comparator that is a strict weak order, the sort is ordered and a permutation |
| Lists.FilterPartition | src/pages/Notificaciones.tsx:154-155 | a condition and its negation split a list, every element once |
| Dates.JsWeekday | src/services/statistics.ts:116 | `getDay` is in 0..6 |

## Left out

- Network, storage and the session: the axios services, `AuthContext`, React Query caching and refetching (the 30 s interval of the layout's query), debounce, timeouts and the `Promise.allSettled` fan-out. Their results are inputs; of a batch of cancellations only the success and failure counts are modelled.
- Browser APIs: the browser `Notification`, the sound, toast styling, `Blob`/URL downloads and the XLSX workbook. Of the spreadsheet export only the file name and the column-width arithmetic are modelled.
- Wall clock and time zones: today, the month bounds and the revenue window start are day numbers passed in. The UTC `toISOString` of the statistics service and the local `setHours` of its alerts and of the pending page are both read as whole calendar days.
- Date text: a turn date is a day number plus an optional minute of the day. Raw-text comparison against 'YYYY-MM-DD' bounds is modelled structurally and assumes four-digit years. `date-fns` formatting and locales are opaque.
- Money display: division by 100 and by 4, `toLocaleString` and `Intl.NumberFormat`. The money columns of the history export are formatter parameters.
- Case mapping covers ASCII only, with no Unicode folding.
- `Array.prototype.sort` is modelled as a stable insertion sort. With undated turns the comparator is not a consistent order, so the engine's actual order is not determined; the sort lemmas assume every turn is dated.
- JSON serialisation: keys set to `undefined` are dropped. A removal update is modelled as clearing the id only, and the payload's key set is not modelled.
- Guards such as `!turn` and `!data` that protect against records not yet loaded: the models take loaded records.
- `Number(null)` is read as 0 in the organizer check.
- Presentation: JSX layout, icons, colours other than those a contract names, the login page's success-message effect, the layout's drawer toggle and logout, and the MUI pickers' own behaviour.
- Text length and order: a `string` here is a sequence of Unicode code points, while JavaScript's `.length`, `padStart` and default sort work on UTF-16 code units. The two agree on text inside the Basic Multilingual Plane; a character outside it counts once here and twice in the browser.
- ChangePassword.Validate: the six-character minimum counts code points, so a password with characters outside the Basic Multilingual Plane can be shorter here than in the browser's count.
- CsvExport.ColumnWidth: widths count code points, not UTF-16 code units.
- Strings.PadStart: the target width counts code points, not UTF-16 code units.
- Strings.LexLess: compares code points; the engine's code-unit order differs only between characters outside the Basic Multilingual Plane and those from U+E000 upwards.
- TurnDetail.Apply: the `date` key of an update is not applied, because the turn holds a parsed date and the edited text is converted by the server; the contract states the player, time and court keys only.
- Lists.Firsts: a row is a list of key/value entries, so it could repeat a key or hold integer-like keys, which a JavaScript object would list once and ascending first. The export's callers build rows with unique, non-numeric keys, where the two orders agree.
- Statistics.TurnsByStatus: the order stated is first appearance. A status string that reads as an array index ("0", "12") would be listed by `Object.entries` before the others and in ascending order. Turn statuses are words, so the model does not distinguish that case.
- DaySection: the `Cambio` datatype pairs the edited axis with its value, so the source's mismatched field/value combinations cannot be expressed.
- Pickers.BoundText: the 'YYYY-MM-DD' shape is stated only for four-digit years, because `String(year)` is not padded.
- Sorting.SortSorted: the order is stated only under a strict weak order; the pages' comparators give one on dated turns only.

## Findings

| source | as written | input that shows it | evidently intended | confidence | as-written member | corrected member |
|---|---|---|---|---|---|---|
| src/pages/TurnosHistorial.tsx:131-145 | `Object.keys(csvData[0])` is read without checking that the filtered history is non-empty | the CSV export with filters that keep no turn | nothing to export, as the shared CSV utility does | high, not executed | History.EmptyHistoryExportThrows | History.HistoryCsv |
| src/pages/TurnosHistorial.tsx:141-145 | keys and values are joined by ',' with no quoting | a court named "Cancha 1, techada" | fields escaped as the shared CSV utility does, so each row reads back as seven columns | high, not executed | History.CommaInCourtNameShiftsColumns | History.HistoryCsvAgreesWithoutSpecialCharacters |
| src/layouts/MainLayout.tsx:79 | the turn-related type list holds 'turn_complete' | an unread 'turn_completed' notification without a `turn_id` | the 'turn_completed' type, which the notifications page uses | medium, not executed | MainLayout.TurnCompletedMissed | MainLayout.CorrectedMenu |
