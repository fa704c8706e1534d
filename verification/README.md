# Appointment book for a car-wash workshop, in Dafny

This project models the rules inside a small appointment-book web application for a car-wash
business. The rules covered are:

- Appointment queries and statistics.
- Client-list operations.
- The calendar's view model: breakpoints, visible days, navigation, per-day filtering, per-hour
  bucketing and stacking.
- The accounting aggregates.
- The booking form.
- The appointments page's filter and status gating.
- The services page's price editor.

Every rule is a pure function over immutable datatypes and sequences. The screens' React
state becomes explicit state records, with event handlers as functions from state to state.

Modules, in dependency order:

- `Wrappers`: `Option`.
- `Seqs`: order-preserving `filter`, `find`/`findIndex`, grouping into a map the way the
  `forEach`+`push` idiom does, and sums over groups.
- `Text`: the string builtins the screens use.
  - `toLowerCase` and `includes`.
  - `split` on one character.
  - `Number` on digit strings.
  - `toString` of integers.
  - `replace(/\D/g, '')`.
- `Dates`: calendar days as integers, with day 0 = Thursday 1 January 1970.
  - The `Date(y, m - 1, d)` constructor, following ECMAScript MakeDay.
  - Parsing the `DD/MM/YYYY` display date.
  - Weekday, and the Monday-started week of date-fns `startOfWeek(…, { weekStartsOn: 1 })`.
- `Appointments`: the appointment record, sample data, lookup by id, the status filter and the
  statistics.
- `Clients`: the client and vehicle records, search, add, and the three copy-and-replace
  updates.
- `Breakpoints`: the viewport-width thresholds.
- `Calendar`: the calendar hook and page.
  - `getDaysToShow` and `getDaysOfWeek`.
  - Prev/next navigation and when it is shown.
  - `getAppointmentsForDay`.
  - The refresh counter.
- `HourGrid`: the hour bucketing and stacking rule that the week view and day view share.
- `WeekView`: the column count, and the grid of day columns.
- `DayView`: the ten fixed hour rows, looked up by `hour.toString()`.
- `Accounting`: total revenue and revenue per `MM/YYYY`.
- `BookingForm`: the option tables, validation, error flags, reset and submit.
- `AppointmentsPage`: the search and status filter, the action gating and the refresh counter.
- `ServicesPage`: editing, cleaning and checking a service price.

Two consequences of the code are proved rather than corrected.

First, the visible days always start on the Monday of the selected day's week. On a phone,
"next" moves the selected day by only 2 to 4 days. So it can leave the same days on screen,
for example from a Monday at width 400 (`Calendar.NextCanKeepVisibleDays`,
`Calendar.SmallMobileNextFromMonday`).

Second, the day view looks its rows up under `"9"` … `"18"`. An appointment's hour key is the
text before the colon of its time, so a time written `"09:15"` has key `"09"`. Such an
appointment is never drawn. This applies to the sample appointment at 09:15 and to bookings
made through the form's first two slots (`DayView.LeadingZeroNeverDrawn`,
`DayView.NineOClockSlotsNeverDrawn`).

The accounting hook reads a `price` field that the shown `Appointment` interface does not
declare. The model therefore gives `Appointment` an optional `price`, and only the accounting
module reads it.

## Model

| member | source | states |
|---|---|---|
| Appointments.GetAppointmentById | src/services/appointmentService.ts:103-105 | None exactly when no appointment has the id; otherwise the appointment at the first position whose id matches |
| Appointments.GetAppointmentsByStatus | src/services/appointmentService.ts:108-111 | "all" returns the whole list; any other string returns, in their original order, exactly the appointments whose status has that name, with every copy kept and nothing else |
| Appointments.UnknownStatusSelectsNothing | src/services/appointmentService.ts:108-111 | a filter string that names no status selects an empty list |
| Appointments.StatusNames | src/services/appointmentService.ts:10 | the three status names are distinct, and none of them is "all" |
| Appointments.StatusFiltersPartition | src/services/appointmentService.ts:114-118 | the pending, completed and cancelled selections together have exactly as many entries as the list |
| Appointments.ServiceTypeCounts | src/services/appointmentService.ts:124-131 | the keys are exactly the service types present; each count is at least 1 and equals the number of appointments of that type |
| Appointments.ServiceTypeCountsSumToTotal | src/services/appointmentService.ts:124-131 | with each type listed once, the counts add up to the number of appointments |
| Appointments.GetAppointmentStats | src/services/appointmentService.ts:114-143 | total is the length; completed, cancelled and pending are each the number of positions holding that status, and home and workshop the number of positions with and without home service; completed + cancelled + pending = total; home + workshop = total; the rate is 0 for an empty list and otherwise completed/total·100, within [0, 100]; the type counts are as above |
| Appointments.CountStatus | src/services/appointmentService.ts:116-118 | the number of positions of the list holding the given status |
| Appointments.CountHome | src/services/appointmentService.ts:120 | the number of positions holding a home-service appointment |
| Appointments.CountWorkshop | src/services/appointmentService.ts:121 | the number of positions holding a workshop appointment |
| Appointments.CountsPartition | src/services/appointmentService.ts:116-121 | the three status counts add up to the length, and so do the home and workshop counts |
| Appointments.StatusCount | src/services/appointmentService.ts:116-118 | a status filter's length is the number of positions holding that status |
| Appointments.PlaceCount | src/services/appointmentService.ts:120-121 | the home and workshop filters' lengths are the numbers of positions with and without home service |
| Appointments.PercentageBounds | src/services/appointmentService.ts:138 | a part of a positive whole gives a percentage between 0 and 100 |
| Clients.IndexOf | src/services/clientService.ts:174 | None exactly when no client has the id; otherwise the first position carrying it |
| Clients.GetClientById | src/services/clientService.ts:148-150 | None exactly when no client has the id; otherwise the first client carrying it |
| Clients.SearchClientsByName | src/services/clientService.ts:153-159 | an empty query returns the list unchanged; otherwise the in-order subsequence of clients whose lower-cased name contains the lower-cased query |
| Clients.AddClient | src/services/clientService.ts:162-170 | the new list is the old one plus the new client at the end; the new client has the given id and every supplied field |
| Clients.AddedClientIsFound | src/services/clientService.ts:162-170 | with a fresh id, looking the new client up returns it |
| Clients.ReplaceFirst | src/services/clientService.ts:174-191 | an unknown id leaves the list unchanged and returns nothing; otherwise only the first matching position changes, and the changed client is returned |
| Clients.UpdateLoyaltyPoints | src/services/clientService.ts:173-192 | the length is kept; an unknown id changes nothing and returns nothing; otherwise only the first matching client changes, with `points` added to its loyalty points and every other field kept; that client is returned |
| Clients.AddVehicleToClient | src/services/clientService.ts:195-219 | the same copy-and-replace guarantees, with the matched client's vehicles extended by one vehicle carrying the new id |
| Clients.UpdateLastServiceDate | src/services/clientService.ts:222-241 | the same copy-and-replace guarantees, with only the matched client's last service date replaced |
| Clients.IndexOfPreserved | src/services/clientService.ts:182-186 | an update that keeps ids leaves every id lookup pointing at the same position |
| Clients.UpdatedClientIsFound | src/services/clientService.ts:173-192 | after a loyalty update, looking the id up returns what the update returned |
| Clients.LoyaltyUpdatesCompose | src/services/clientService.ts:177-180 | two loyalty updates of one client equal a single update by the sum |
| Clients.LoyaltyCanGoNegative | src/services/clientService.ts:179 | there is no lower bound: a large enough negative update leaves a negative balance |
| Clients.LastServiceDateIdempotent | src/services/clientService.ts:226-229 | setting the same last service date twice equals setting it once |
| Clients.VehicleAppendedLast | src/services/clientService.ts:204-207 | the vehicle list grows by exactly one; the old vehicles come first, unchanged, and the new vehicle is last |
| Breakpoints.At | src/hooks/use-mobile.tsx:4-54 | mobile holds exactly when width < 768, and exactly when the width is in the small, medium or large range; the three ranges are pairwise disjoint; desktop is the complement of mobile |
| Calendar.DaysToShow | src/hooks/use-calendar.tsx:41-46 | the result is 2, 3, 4 or 7, and it is below 7 exactly when one of the mobile ranges holds |
| Calendar.DaysToShowAtWidth | src/hooks/use-calendar.tsx:41-46 | 2 up to width 430, 3 for 431–639, 4 for 640–767, and 7 exactly at desktop widths |
| Calendar.DayCount | src/hooks/use-calendar.tsx:50-53 | getDaysToShow days on mobile and a full week of 7 otherwise, so between 2 and 7 |
| Calendar.VisibleDays | src/hooks/use-calendar.tsx:48-64 | the days are consecutive, and there are getDaysToShow of them on mobile and 7 otherwise; the first is the Monday on or before the selected day |
| Calendar.GetDaysOfWeek | src/hooks/use-calendar.tsx:55-63 | the day-by-day loop builds exactly the visible days |
| Calendar.VisibleDaysDependOnlyOnWeek | src/hooks/use-calendar.tsx:49-61 | two selected days give the same visible days exactly when they fall in the same Monday-started week |
| Calendar.MobileShowsOnlyEarlyWeekdays | src/hooks/use-calendar.tsx:49-52 | on mobile, every visible day's weekday index is below the day count, so later weekdays are never shown |
| Calendar.NextDays | src/pages/CalendarPage.tsx:51-54 | next moves the selected day forward by exactly getDaysToShow days |
| Calendar.PrevDays | src/pages/CalendarPage.tsx:46-49 | previous moves the selected day back by exactly getDaysToShow days |
| Calendar.NavigationRoundTrip | src/pages/CalendarPage.tsx:46-54 | next then previous, or previous then next, under the same breakpoint restores the selected day |
| Calendar.NextCanKeepVisibleDays | src/pages/CalendarPage.tsx:51-54 | when the weekday index plus the step stays below 7, next leaves the visible days unchanged |
| Calendar.SmallMobileNextFromMonday | src/pages/CalendarPage.tsx:51-54 | at width 400, next from a Monday moves two days and still shows that Monday and Tuesday |
| Calendar.ShowsNavigation | src/pages/CalendarPage.tsx:74 | the render condition `isMobile && activeView === "week"` for the prev/next buttons, a predicate without a contract of its own; its meaning at a settled width is the next row |
| Calendar.NavigationOnlyWhenWeekCut | src/pages/CalendarPage.tsx:74 | at a settled width, prev/next are shown exactly when the week tab is active and getDaysToShow is below 7, so the visible days are fewer than a week |
| Calendar.AppointmentsForDay | src/pages/CalendarPage.tsx:35-43 | no list gives []; otherwise, in their original order, exactly the appointments whose display date is that day, with every copy kept |
| Calendar.Step | src/pages/CalendarPage.tsx:46-88 | prev/next change nothing unless their buttons are shown, and when shown they move only the selected day, by getDaysToShow days back or forward; "today" sets only the selected day, a tab change only the active view, and an added appointment only raises the refresh key by one |
| Calendar.RefreshKeyCountsChanges | src/hooks/use-calendar.tsx:66-68 | after any run of events, the refresh key has grown by exactly the number of added appointments |
| HourGrid.HourKey | src/components/calendar/WeekView.tsx:90 | the key is the first part of the time split on ':'; it is the prefix of the time before the first colon |
| HourGrid.Buckets | src/components/calendar/WeekView.tsx:87-95 | the keys are exactly the hour keys present, and each bucket is the in-order subsequence of appointments with that key |
| HourGrid.InExactlyOneBucket | src/components/calendar/WeekView.tsx:87-95 | every appointment is in its own key's bucket and in no other |
| HourGrid.BucketSizesSumToTotal | src/components/calendar/DayView.tsx:28-34 | with each key listed once, the bucket sizes add up to the number of appointments |
| HourGrid.Place | src/components/calendar/WeekView.tsx:107-126 | the entry at position i carries its appointment and z-index i + 1; position 0 has no offset, shadow or badge, and every later position has the view's offset, a shadow and the view's badge |
| HourGrid.Stack | src/components/calendar/WeekView.tsx:107-126 | entries keep the bucket's order; the entry at position i has z-index i + 1, so the z-index strictly increases from 1; only entries after the first get the offset, shadow and badge |
| HourGrid.StackedAppointments | src/components/calendar/DayView.tsx:62-83 | an appointment is drawn in a stack exactly when it is in the bucket |
| WeekView.ColumnCount | src/components/calendar/WeekView.tsx:60-66 | 3, 4, 5 or 7 columns; at least as many as days when there are at most 7; equal for 3 to 5; 7 beyond 5 |
| WeekView.ColumnsFitVisibleDays | src/components/calendar/WeekView.tsx:60-66 | the visible days always fit in the grid's columns |
| WeekView.OwnButtonsAtWidth | src/components/calendar/WeekView.tsx:27-30 | the week view shows its own buttons exactly at mobile widths |
| WeekView.Column | src/components/calendar/WeekView.tsx:84-126 | a day's column has a group for exactly the hour keys among that day's appointments, each holding the stack of that key's appointments in list order |
| WeekView.StackAll | src/components/calendar/WeekView.tsx:105-126 | every hour group is drawn, each stacked with the week view's style, and no other group appears |
| WeekView.Grid | src/components/calendar/WeekView.tsx:84-95 | one column per visible day, each built from that day's appointments |
| WeekView.DrawnWhereItBelongs | src/components/calendar/WeekView.tsx:84-126 | an appointment is drawn in column j under key k exactly when k is its hour key and its date is day j |
| WeekView.DrawnAtMostOnce | src/components/calendar/WeekView.tsx:84-126 | over distinct days, an appointment is drawn in at most one column and hour |
| WeekView.VisibleDaysDistinct | src/hooks/use-calendar.tsx:55-61 | the visible days are pairwise different |
| DayView.Hours | src/components/calendar/DayView.tsx:23 | exactly ten rows, for hours 9 to 18 |
| DayView.RowKey | src/components/calendar/DayView.tsx:62 | a row's key is a string of decimal digits whose value is the hour, with no leading zero |
| DayView.Rows | src/components/calendar/DayView.tsx:57-83 | ten rows for hours 9 to 18, in order; row i holds the stack of the bucket under the key of hour 9 + i, with the day view's style, or nothing when there is no such bucket |
| DayView.DrawnIffKeyIsRowKey | src/components/calendar/DayView.tsx:57-62 | an appointment is drawn in row i exactly when its hour key is that row's hour written without leading zeros |
| DayView.DrawnIffKeyIsAnHour | src/components/calendar/DayView.tsx:57-62 | an appointment is drawn somewhere exactly when its key is one of 9..18 written without leading zeros |
| DayView.DrawnInOneRow | src/components/calendar/DayView.tsx:57-62 | an appointment drawn in two rows is drawn in one: the row keys are distinct |
| DayView.LeadingZeroNeverDrawn | src/components/calendar/DayView.tsx:29 | a time starting with '0' is never drawn in any row |
| DayView.OutsideOpeningHoursNeverDrawn | src/components/calendar/DayView.tsx:23 | an hour key for an hour outside 9..18 is never drawn |
| DayView.SampleAtNineFifteenNotDrawn | src/services/appointmentService.ts:49 | the sample appointment at "09:15" is never drawn in the day view |
| DayView.NineOClockSlotsNeverDrawn | src/components/AppointmentForm.tsx:33-37 | a booking at the form's "09:00" or "09:30" slot is never drawn in the day view |
| Accounting.TotalRevenue | src/hooks/useAccountingData.tsx:40-44 | the left fold equals the sum of prices, with a missing price counted as 0; an empty list gives 0 |
| Accounting.MonthKeyOfDisplayDate | src/hooks/useAccountingData.tsx:50-51 | for a date `DD/MM/YYYY` the key is `MM/YYYY` |
| Accounting.RevenueByMonth | src/hooks/useAccountingData.tsx:46-61 | the keys are exactly the month keys present, each value is the summed price of that month's appointments, and an empty list gives an empty map |
| Accounting.MonthsSumToTotal | src/hooks/useAccountingData.tsx:40-61 | with each month listed once, the monthly values add up to the total revenue |
| BookingForm.TimesAreHalfHours | src/components/AppointmentForm.tsx:33-37 | eighteen clock labels, the i-th at 09:00 + 30·i minutes, from "09:00" to "17:30" |
| BookingForm.TimesStrictlyIncrease | src/components/AppointmentForm.tsx:33-37 | the time labels strictly increase |
| BookingForm.HandleInputChange | src/components/AppointmentForm.tsx:56-68 | the field takes the value and no other field changes; its error is cleared only for a non-empty value, and other errors are kept |
| BookingForm.HandleSelectChange | src/components/AppointmentForm.tsx:70-79 | the field takes the value and its error is cleared, whatever the value; nothing else changes |
| BookingForm.Validate | src/components/AppointmentForm.tsx:81-87 | name, service and time are in error exactly when empty; the address is in error exactly in home mode with an empty address |
| BookingForm.ValidIff | src/components/AppointmentForm.tsx:81-90 | valid exactly when name, service and time are non-empty and, in home mode, the address is non-empty |
| BookingForm.WorkshopIgnoresLocation | src/components/AppointmentForm.tsx:86 | outside home mode the address does not affect validity |
| BookingForm.ResetForm | src/components/AppointmentForm.tsx:93-102 | all four fields become "", the mode "workshop", the date today; the error flags are untouched |
| BookingForm.HandleSubmit | src/components/AppointmentForm.tsx:104-132 | data is built exactly when the form is valid and a date is set; it carries the fields and date, the address verbatim, and home service exactly in home mode; the error flags become the validation's either way |
| BookingForm.SubmitRestoresInitialForm | src/components/AppointmentForm.tsx:104-132 | after a successful submit the form is back in its opening state |
| AppointmentsPage.FilteredAppointments | src/pages/AppointmentsPage.tsx:27-31 | in their original order, exactly the appointments whose lower-cased name contains the lower-cased term and whose status passes the filter, with every copy kept |
| AppointmentsPage.EmptySearchShowsAll | src/pages/AppointmentsPage.tsx:27-31 | an empty search with filter "all" returns the whole list |
| AppointmentsPage.FilterIsIdempotent | src/pages/AppointmentsPage.tsx:27-31 | filtering the filtered list again changes nothing |
| AppointmentsPage.StatusFilterAgreesWithService | src/pages/AppointmentsPage.tsx:29 | with no search term the page's filter selects exactly what the status query of the appointment service returns |
| AppointmentsPage.ActionsFor | src/pages/AppointmentsPage.tsx:176-197 | cancel and complete are offered exactly for pending appointments; close exactly for the others |
| AppointmentsPage.OnlyPendingChanges | src/pages/AppointmentsPage.tsx:176-197 | a status change can only be requested from pending, and only to completed or cancelled |
| AppointmentsPage.HandleStatusUpdate | src/pages/AppointmentsPage.tsx:42-55 | a successful update bumps the refresh key by one and clears the selection; a failed one changes nothing |
| AppointmentsPage.CloseDetails | src/pages/AppointmentsPage.tsx:124 | closing the dialog clears the selection and changes nothing else |
| AppointmentsPage.OpenThenDismiss | src/pages/AppointmentsPage.tsx:124-195 | opening an appointment's dialog and then closing it leaves the page as before, with nothing selected, whatever the status |
| AppointmentsPage.Step | src/pages/AppointmentsPage.tsx:27-197 | search, filter, open, close and add each change only their own field; a dialog button that is not on screen does nothing; "Cerrar" clears the selection; a status button applies the status-update handler, so any change from a button comes from a pending appointment, and a change from "Cerrar" from a completed or cancelled one |
| AppointmentsPage.StepChangesOnlyPending | src/pages/AppointmentsPage.tsx:176-190 | a press that reloads the list came from a pending appointment's dialog and asked for completed or cancelled |
| AppointmentsPage.HandleAppointmentAdded | src/pages/AppointmentsPage.tsx:37-40 | the refresh key rises by exactly one and nothing else changes |
| AppointmentsPage.RefreshKeyCountsChanges | src/pages/AppointmentsPage.tsx:37-55 | after any run of events the refresh key has grown by exactly the number of additions plus successful status updates made through a button the dialog showed |
| ServicesPage.HandleEditClick | src/pages/ServicesPage.tsx:29-32 | editing targets the service's id; the price box holds `price.toString()`, whose digits are those of the price's magnitude |
| ServicesPage.HandlePriceInput | src/pages/ServicesPage.tsx:94 | typing sets the box to exactly the typed text and keeps the edited row |
| ServicesPage.CancelEdit | src/pages/ServicesPage.tsx:109 | cancel clears the edited id and keeps the box's text |
| ServicesPage.SanitizedPrice | src/pages/ServicesPage.tsx:35 | the digits left after stripping every non-digit always read as a number, never NaN |
| ServicesPage.NoDigitsReadAsZero | src/pages/ServicesPage.tsx:35-40 | text without digits, the empty box included, reads as 0 and is refused |
| ServicesPage.PriceToSave | src/pages/ServicesPage.tsx:35-40 | a price is sent exactly when the cleaned value is positive |
| ServicesPage.HandleSaveClick | src/pages/ServicesPage.tsx:34-50 | a refused price requests nothing and changes nothing; an accepted one requests the update with that positive price; only a reported success closes the editor and clears the box |
| ServicesPage.RefusedIffNoNonZeroDigit | src/pages/ServicesPage.tsx:35-40 | a save is refused exactly when every digit in the box is '0' |
| ServicesPage.SeparatorsIgnored | src/pages/ServicesPage.tsx:35 | a non-digit typed anywhere in the box does not change the price |
| ServicesPage.EditThenSaveRoundTrip | src/pages/ServicesPage.tsx:29-40 | opening a row and saving without retyping sends back a positive price unchanged and a negative one as its magnitude, and refuses a zero price |
| Seqs.Filter | src/services/appointmentService.ts:110 | `filter` keeps, in their original order, every copy of the elements that pass and nothing else |
| Seqs.FilterUnique | src/services/appointmentService.ts:110 | that description pins the result: any in-order selection keeping every passing copy and nothing else is the filter's result |
| Seqs.FilterCountsPositions | src/services/appointmentService.ts:116-121 | the filtered list's length is the number of positions whose element passes |
| Text.Split | src/components/calendar/WeekView.tsx:90 | at least one part, and no part contains the separator |
| Text.SplitJoin | src/components/calendar/WeekView.tsx:90 | joining the parts with the separator gives back the string |
| Text.NatToString | src/components/calendar/DayView.tsx:62 | decimal digits with no leading zero (except for 0 itself) that read back as the number |
| Text.DigitsOf | src/pages/ServicesPage.tsx:35 | the digits of the string in their original order, every copy kept, and nothing else |
| Dates.DisplayDateParses | src/pages/CalendarPage.tsx:39-40 | a `DD/MM/YYYY` string of digit fields reads as the values of those fields |
| Dates.StartOfWeek | src/hooks/use-calendar.tsx:49 | a Monday, on or before the day and less than a week before it |
| Dates.SameWeek | src/hooks/use-calendar.tsx:49 | two days share a Monday exactly when they lie in the same Monday-started week |

## Left out

- Rendering, styling classes, dialogs, toasts and routing. This includes the colour per status
  and the loading placeholders; none of them carries a rule.
- React state, effects, asynchronous loading and `matchMedia` listeners. Breakpoint flags and
  the width are inputs, and handler state is an explicit record.
- `addAppointment`, `updateAppointmentStatus`, `getCompletedAppointments`,
  `getPaymentMethodStats` and any per-slot booking cap. No shown code defines them. A status
  update's outcome is a boolean parameter, and the accounting functions take the completed
  list as input.
- The price service of `services/serviceService.ts`. Its only rule, refusing a price of 0 or
  less, is already met by the page's own guard. Its reported success is a boolean parameter.
- Id generation from the clock and a random number: ids are parameters.
- The order in which `Object.entries` lists hour groups. The model says which entries each
  group holds and in what order, not how the groups are ordered.
- Floating point. The completion rate is a real number, so `(completed / total) * 100` is
  exact. Prices and loyalty points are integers, so a fractional service price and its
  `toString` are not modelled. `Number` precision on very long digit strings is also left out.
- Text.Lower: lowers ASCII A–Z and Latin-1 À–Þ (except ×) only, because the full Unicode
  case mapping of `toLowerCase` is not modelled.
- Text.NumberOf: reads only digit strings and the empty string. Whitespace, signs, decimal
  points, exponents and hexadecimal forms are treated as NaN. The screens only pass it the
  fields of a `DD/MM/YYYY` date or a string already stripped to digits.
- Dates.LocalDate: models `new Date(y, m - 1, d)` on unbounded integers. Time zones,
  daylight-saving shifts and the time-value range limit are left out.
- Plain-object quirks of keys such as "constructor" or "toString". A service type, hour key
  or month key with such a name is treated like any other string.
