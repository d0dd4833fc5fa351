# EE-index and EEJ classification, modelled in Dafny

This project models the core of the MAGDAS EE-index pipeline and proves
properties of it. The pipeline turns per-minute magnetometer samples into
three indices:

- **ER**: the equatorial H component less a baseline, with outliers clipped.
- **EDst**: the NaN-aware mean of the night-side ER of every catalog station.
- **EUEL**: ER less EDst, optionally shifted so that its night side sits
  around zero.

For each local day it then picks the dip and off-dip stations whose EUEL has
the fewest gaps, takes the difference of their noon peaks, and classifies the
day as normal, peculiar, disturbance or missing. Peculiar days are further
typed as undeveloped or sudden and counted per month against the quiet days.

Around this core sit the smaller parts the pipeline rests on:

- the station catalog and its dip and off-dip roles;
- the wrap-around time-of-day ranges;
- the MAGDAS binary reader, with its header skip and reshape;
- period and calendar arithmetic;
- the ten-day baseline dates and the baseline CSV;
- the Kyoto Dst pages, with the month-range validation and the disturbed days;
- the IAGA-2002 export of the indices.

NaN is `None` in an `Option<real>` (`Samples.Sample`). The raw file archive
is a map from station code and UT date to the contents of the matching
files. The range limits of the constants module (`MIN_RAW_H`, `MAX_RAW_H`,
`MIN_ER`, `MAX_ER`) are a `Thresholds` value. The floating-point routines
are function-valued fields of `EeEnv.Numerics`, constrained only by their
length and NaN contracts:

- cosine;
- `nanmedian`;
- Pearson correlation;
- `interpolate_nan`;
- the thresholded moving average.

Each module follows one source file. Objects whose fields the source updates
are classes:

- `HComponent`, `Er`, `Edst`, `Euel`;
- the factory `EeFactory` with its four caches;
- the baseline store;
- the binary file cursor;
- `GMDataLoader`.

Loops are methods proved against the function that specifies them.

## Model

| member | source | states |
|---|---|---|
| TimeRelation.DurationsConsistent | backend/src/constants/time_relation.py:6-19 | one day is 24 hours of minutes, three and six hours, five, thirty and sixty days are the matching multiples, and the second constants agree with the minute ones |
| TimeRelation.WrappingRangeIsComplement | backend/src/constants/time_relation.py:27-32 | a range whose start is after its end contains exactly the times not strictly between its end and its start |
| TimeRelation.NightsideSpansMidnight | backend/src/constants/time_relation.py:40-43 | NIGHTSIDE holds a time of day iff it is at or after 18:00:00 or at or before 05:59:59; 23:59:59 and 00:00:00 are in, 06:00:00 and 17:59:59 are out |
| TimeRelation.DayAndNightPartitionSeconds | backend/src/constants/time_relation.py:35-43 | every whole-second time of day lies in exactly one of DAYSIDE and NIGHTSIDE |
| TimeRelation.FractionalSecondsOnNeitherSide | backend/src/constants/time_relation.py:35-43 | a time strictly between 17:59:59 and 18:00:00, or between 05:59:59 and 06:00:00, lies on neither side |
| MagdasStation.RolesExclusive | backend/src/service/ee_index/constant/magdas_station.py:45-49 | no station is both dip (abs latitude below 3) and off-dip (3 to 15); beyond 15 degrees a station is neither, and otherwise it is one of them |
| MagdasStation.CatalogLatitudes | backend/src/service/ee_index/constant/magdas_station.py:15-43 | every catalog latitude lies strictly between -90 and 90 |
| MagdasStation.Lookup | backend/src/service/ee_index/constant/magdas_station.py:13-53 | `EeIndexStation[code]` finds a catalog station with that code exactly when `is_included(code)` holds |
| MagdasStation.CatalogAscends | backend/src/service/ee_index/constant/magdas_station.py:15-43 | the catalog has 29 entries with three-letter codes in strictly ascending order |
| MagdasStation.CodesDistinct | backend/src/service/ee_index/constant/magdas_station.py:15-43 | the 29 codes are pairwise distinct |
| MagdasStation.LookupUnique | backend/src/service/ee_index/constant/magdas_station.py:13-53 | looking up the code of catalog entry i returns entry i |
| Region.FromCode | backend/src/domain/region.py:23-28 | `from_code` succeeds iff some region has the code, and then returns a region with that code; otherwise it is the `ValueError` |
| Region.FromCodeOfCode | backend/src/domain/region.py:12-27 | `from_code(r.code)` returns r for both regions |
| Region.FromCodeRejectsUnknown | backend/src/domain/region.py:28 | a code other than "south_america" and "southeast_asia" is rejected |
| Quiet.IsQuietDay | backend/src/domain/quiet.py:12-15 | a quiet day has neither value NaN |
| Quiet.QuietBoundaries | backend/src/domain/quiet.py:3-15 | quiet iff min EDst >= -30 and max Kp < 4; EDst exactly -30 can be quiet, Kp exactly 4 never is, and NaN in either input is never quiet |
| Quiet.QuietIsMonotone | backend/src/domain/quiet.py:12-15 | raising min EDst or lowering max Kp keeps a quiet day quiet |
| SanitizeNp.NanToNone | backend/src/service/sanitize_np.py:6-7 | same length; None exactly at the NaN positions; every other value kept |
| SanitizeNp.ToFloat | backend/src/service/sanitize_np.py:10-11 | same length; None stays None and nothing else becomes None |
| SanitizeNp.SanitizeIsNanToNone | backend/src/service/sanitize_np.py:14-15 | `sanitize_np` equals `np_nan_to_none`, so None appears exactly where the input is NaN |
| SanitizeNp.SanitizeRoundTrip | backend/src/service/sanitize_np.py:6-15 | mapping None back to NaN recovers the input, and no kept value is NaN |
| Samples.NanSeries | backend/src/usecase/ee_index/calc_h_component.py:21-23 | `np.full(n, np.nan)`: n entries, every one NaN |
| Samples.Sanitize | backend/src/repository/gm_data.py:51-53 | a raw value survives iff it is finite and strictly between the bounds, and then unchanged |
| Samples.ClipInPlaceIsSanitize | backend/src/usecase/ee_index/calc_h_component.py:30-32 | overwriting a value at or beyond either bound with NaN gives the same sample as the `np.where` test of `_sanitize` |
| Samples.ValidCountZero | backend/src/usecase/ee_index/calc_edst.py:27 | a series has no valid entry exactly when it is all NaN |
| Samples.NanMean | backend/src/usecase/ee_index/calc_edst.py:27 | the NaN-aware mean is NaN exactly when every entry is NaN |
| Samples.NanMeanBounds | backend/src/usecase/ee_index/calc_edst.py:27 | the NaN-aware mean lies within any bounds that hold for the valid entries |
| Samples.NanAddsNothing | backend/src/ee_index/calc/moving_ave.py:6-8 | inserting a NaN changes neither the count nor the sum of valid entries |
| Samples.Max | backend/src/service/calc_eej_detection.py:183-184 | `np.max` is NaN iff some entry is NaN, else an entry that bounds every entry from above |
| Samples.Min | backend/src/service/calc_eej_detection.py:209 | `np.min` is NaN iff some entry is NaN, else an entry that bounds every entry from below |
| Samples.SubSeq | backend/src/service/calc_eej_detection.py:119 | numpy subtraction succeeds iff the shapes broadcast, with the broadcast length |
| Samples.SubSeqPairs | backend/src/usecase/ee_index/calc_euel.py:28 | equal-length arrays subtract element by element, NaN where either operand is NaN |
| Samples.Select | backend/src/usecase/ee_index/calc_er.py:40-47 | `np.where(mask, x, nan)` succeeds iff the shapes broadcast, with the broadcast length |
| Samples.SelectPairs | backend/src/usecase/ee_index/calc_er.py:40-47 | for a mask as long as the data, the data is kept under true and NaN is put under false |
| Samples.SelectKeeps | backend/src/usecase/ee_index/calc_er.py:40-47 | whatever the shapes, a non-NaN output is the data's own value at that (stretched) position |
| Calendar.DaysInMonth | backend/src/ee_index/helper/time_utils.py:9-19 | `get_days_in_month` lies between 28 and 31, February has 29 days exactly in a leap year, and every other month has at least 30 |
| Calendar.DaysInYear | backend/src/ee_index/helper/time_utils.py:21-32 | `get_days_in_year` is 365 or 366 |
| Calendar.MonthsFillYear | backend/src/ee_index/helper/time_utils.py:9-32 | the month lengths add up to the year length, 366 exactly in a leap year |
| Calendar.DateOrderIsOrdinalOrder | backend/src/usecase/ee_index/calc_h_component.py:46-47 | comparing dates field by field is comparing their ordinals, and equal ordinals mean equal dates |
| Calendar.NextDay | backend/src/dev/classify_peculiar_eej_category.py:67-72 | the day after a valid date is a valid date |
| Calendar.NextDayOrdinal | backend/src/dev/classify_peculiar_eej_category.py:67-72 | `date + timedelta(days=1)` moves the ordinal by one |
| Calendar.PrevDayOrdinal | backend/src/usecase/ee_index/calc_h_component.py:57-58 | the day before moves the ordinal back by one |
| Calendar.AddDays | backend/src/usecase/ee_index/calc_h_component.py:57-58 | `start_date + timedelta(days=i)` is a valid date |
| Calendar.AddDaysOrdinal | backend/src/usecase/ee_index/calc_h_component.py:57-58 | adding n days, n of either sign, moves the ordinal by exactly n |
| Calendar.BeforeIsInstantOrder | backend/src/domain/station_params.py:14-16 | comparing date-times by date then time of day is comparing their instants, and equal instants mean equal date-times |
| Calendar.AddMicros | backend/src/usecase/ee_index/calc_er.py:31 | adding a `timedelta` to a valid date-time gives a valid date-time |
| Calendar.AddMicrosInstant | backend/src/usecase/ee_index/calc_er.py:31 | adding a `timedelta` moves the instant by exactly that many microseconds |
| Calendar.AddMicrosInverse | backend/src/ee_index/helper/time_utils.py:43-58 | adding and then subtracting the same `timedelta` gives back the original date-time |
| Calendar.AddMicrosReaches | backend/src/ee_index/helper/time_utils.py:43-58 | adding delta to a date-time yields the one date-time whose instant is delta later |
| Calendar.MinuteOfDay | backend/src/usecase/ee_index/calc_h_component.py:48-51 | `hour * 60 + minute` is an index into a 1440-sample day |
| Calendar.TruncateToMinute | backend/src/domain/station_params.py:39-46 | `replace(second=0, microsecond=0)` keeps date, hour and minute, and moves the instant back by less than a minute onto a whole minute |
| Calendar.HoursToMicros | backend/src/ee_index/helper/time_utils.py:43 | `timedelta(hours=h)` keeps h hours rounded to the nearest microsecond |
| Calendar.TimeDiff | backend/src/ee_index/helper/time_utils.py:60-74 | `time_diff` gives hours below 24 and minutes below 60, and days, hours and minutes recompose the duration floored to whole minutes |
| TimeUtils.ToLocalTime | backend/src/ee_index/helper/time_utils.py:34-45 | `to_local_time` lies the station's offset after the UT time |
| TimeUtils.ToUtTime | backend/src/ee_index/helper/time_utils.py:47-58 | `to_ut_time` lies the station's offset before the local time |
| TimeUtils.LocalUtRoundTrip | backend/src/ee_index/helper/time_utils.py:34-58 | `to_ut_time(to_local_time(t)) == t` and `to_local_time(to_ut_time(t)) == t` |
| TimeUtils.DayStart | backend/src/ee_index/helper/time_utils.py:76-85 | `get_day_start` keeps the date and the microseconds, sets hour, minute and second to zero, and is never later than its input |
| StationParams.NewPeriod | backend/src/domain/station_params.py:9-16 | a `Period` is built exactly when start is strictly before end, and then holds those two ends; otherwise it is the `ValueError` |
| StationParams.ToUtParams | backend/src/domain/station_params.py:39-47 | `to_ut_params` keeps the station; each end is shifted back by the station's offset and truncated to a whole minute, lying less than a minute before the shifted time |
| StationParams.TruncateInstant | backend/src/domain/station_params.py:39-46 | truncating to the minute removes exactly the instant's sub-minute remainder |
| StationParams.TruncatedPairKeepsGap | backend/src/domain/station_params.py:39-46 | two date-times a whole number of minutes apart stay exactly that far apart after truncation |
| StationParams.ToUtParamsKeepsDuration | backend/src/domain/station_params.py:39-47 | for minute-aligned ends, `to_ut_params` never raises and keeps the period's duration |
| PeriodUtil.CreateMonthPeriod | backend/src/utils/period.py:7-13 | the month period runs from the 1st at 00:00 to the month's last day at 23:59:00, and `Period`'s start-before-end check always passes |
| PeriodUtil.MonthPeriodCoversMonth | backend/src/utils/period.py:7-13 | the day after the end is the first of the next month (January of the next year after December), and `time_diff` is the month's days minus one, 23 hours and 59 minutes |
| PeriodUtil.FebruaryLastDay | backend/src/utils/period.py:9 | February's period ends on the 29th in 2024 and 2000, and on the 28th in 2023 and 1900 |
| CalcHComponent.HForADay | backend/src/usecase/ee_index/calc_h_component.py:12-36 | raises `FileNotFoundError` iff more than one file matches the day; no file, or an undecodable one, gives 1440 NaN; otherwise 1440 samples all strictly inside the raw-H limits |
| CalcHComponent.HForADayDecoded | backend/src/usecase/ee_index/calc_h_component.py:28-33 | for the one decodable file, the day's H is column 0 of its 1440 rows with out-of-range values set to NaN |
| CalcHComponent.HForADayIsGmH | backend/src/repository/gm_data.py:26-53 | `get_h_for_a_day` and `GMDataLoader` fail together and agree on the h series |
| CalcHComponent.ClipInPlace | backend/src/usecase/ee_index/calc_h_component.py:30-32 | the in-place loop overwrites with NaN every value at or beyond a raw-H limit and keeps every other value |
| CalcHComponent.GetHForADay | backend/src/usecase/ee_index/calc_h_component.py:12-36 | the glob, read and in-place clipping compute exactly `HForADay` |
| CalcHComponent.SpliceSucceeds | backend/src/usecase/ee_index/calc_h_component.py:56-70 | the multi-day concatenation fails exactly when one of its days fails |
| CalcHComponent.SpliceLength | backend/src/usecase/ee_index/calc_h_component.py:56-70 | the first day contributes from its start index, middle days whole, the last day through its end index |
| CalcHComponent.SpliceAt | backend/src/usecase/ee_index/calc_h_component.py:56-70 | element m of the concatenation is minute (s+m) mod 1440 of day (s+m) div 1440 |
| CalcHComponent.DaysOfAt | backend/src/usecase/ee_index/calc_h_component.py:57-59 | the loop's i-th day is `get_h_for_a_day` of `start_date + timedelta(days=i)` |
| CalcHComponent.GatherFails | backend/src/usecase/ee_index/calc_h_component.py:45-70 | fetching fails exactly when one of the period's days fails, for a single day and for several |
| CalcHComponent.GatherLength | backend/src/usecase/ee_index/calc_h_component.py:45-70 | one sample per minute from the start minute through the end minute |
| CalcHComponent.GatherAt | backend/src/usecase/ee_index/calc_h_component.py:45-70 | sample m is minute (s+m) mod 1440 of day (s+m) div 1440, on a single day and across days |
| CalcHComponent.AddDaysHitsEnd | backend/src/usecase/ee_index/calc_h_component.py:60-67 | the loop meets the start date only at i = 0 and the end date only at its last pass |
| CalcHComponent.DayPiece | backend/src/usecase/ee_index/calc_h_component.py:58-69 | one loop pass: the start date sliced from the start index, the end date through the end index, any other day whole |
| CalcHComponent.CollectDays | backend/src/usecase/ee_index/calc_h_component.py:56-70 | the day loop concatenates exactly the pieces of days 0 to n in order, or raises at the first failing day |
| CalcHComponent.HValuesFails | backend/src/usecase/ee_index/calc_h_component.py:45-70 | `get_h_component` raises exactly when some day of the period has more than one file |
| CalcHComponent.HValuesLength | backend/src/usecase/ee_index/calc_h_component.py:45-70 | for start before end the result holds one sample per minute, period minutes plus one |
| CalcHComponent.HValuesAt | backend/src/usecase/ee_index/calc_h_component.py:45-70 | sample m is that minute of the `get_h_for_a_day` of the date it falls on |
| CalcHComponent.Equatorial | backend/src/usecase/ee_index/calc_h_component.py:72-77 | same length, NaN exactly where H is NaN, and each value times the positive cosine of the latitude gives back H |
| CalcHComponent.EquatorialH | backend/src/usecase/ee_index/calc_h_component.py:72-77 | `to_equatorial_h` fails exactly when `get_h_component` does, and has its length |
| CalcHComponent.HComponent.GetHComponent | backend/src/usecase/ee_index/calc_h_component.py:45-70 | the method returns the H of the object's station over its UT period |
| CalcHComponent.HComponent.ToEquatorialH | backend/src/usecase/ee_index/calc_h_component.py:72-77 | the method returns that H converted to the dip equator |
| GmData.SanitizedColumn | backend/src/repository/gm_data.py:51-53 | one sanitized value per row |
| GmData.LoadGm | backend/src/repository/gm_data.py:26-49 | raises iff more than one file matches; no file gives four all-NaN series; otherwise h, d, z and f each have 1440 samples strictly inside the raw-H limits |
| GmData.LoadGmColumns | backend/src/repository/gm_data.py:43-46 | h, d, z and f are columns 0 to 3 of the decoded file, each sanitized with the H limits |
| GmData.LoadGmUndecodable | backend/src/repository/gm_data.py:47-49 | a file that raises `ValueError` gives four all-NaN series |
| RawDataReader.BinaryFile.Read | backend/src/usecase/raw_data_reader.py:21-23 | `file.read(n)` returns the next n bytes, fewer at the end of the file, and advances past them |
| RawDataReader.SubIndex | backend/src/usecase/raw_data_reader.py:20-24 | the first 0x1A byte of the file: no earlier byte is 0x1A |
| RawDataReader.HeaderSkipped | backend/src/usecase/raw_data_reader.py:19-24 | the header through the first 0x1A plus one more byte, whatever its value, is dropped and the rest is the payload |
| RawDataReader.SubIndexOf | backend/src/usecase/raw_data_reader.py:20-24 | in a header free of 0x1A followed by 0x1A, the delimiter is found right after the header |
| RawDataReader.Float32s | backend/src/usecase/raw_data_reader.py:26 | `np.fromfile(file, np.float32)` holds one little-endian value per whole four bytes |
| RawDataReader.Reshape | backend/src/usecase/raw_data_reader.py:28-30 | `reshape((rows, cols))` has `rows` rows of `cols` values |
| RawDataReader.ReshapeCell | backend/src/usecase/raw_data_reader.py:28-30 | cell (i, j) is value i*cols + j, row-major |
| RawDataReader.ReadRawMin | backend/src/usecase/raw_data_reader.py:6-33 | succeeds iff the payload holds 1440*7 or 1440*8 values, otherwise `ValueError`; then 1440 rows of 7 or 8 values |
| RawDataReader.ReadRawMinCell | backend/src/usecase/raw_data_reader.py:26-30 | cell (i, j) of a decoded minute file is the payload value at i*k + j |
| RawDataReader.ReadRawSec | backend/src/usecase/raw_data_reader.py:36-61 | succeeds iff the payload holds exactly 86400*4 values, otherwise `ValueError`; then 86400 rows of 4 |
| RawDataReader.SkipHeader | backend/src/usecase/raw_data_reader.py:20-24 | the byte-by-byte loop stops just after the byte following the first 0x1A, or at the end of the file |
| RawDataReader.ReadRawMinData | backend/src/usecase/raw_data_reader.py:6-33 | the file-reading method computes exactly `ReadRawMin` |
| RawDataReader.ReadRawSecData | backend/src/usecase/raw_data_reader.py:36-61 | the file-reading method computes exactly `ReadRawSec` |
| CalcEr.RawEr | backend/src/usecase/ee_index/calc_er.py:15-18 | subtracting the period's median keeps the length |
| CalcEr.Clipped | backend/src/usecase/ee_index/calc_er.py:21-24 | a value survives iff it is defined and within [MIN_ER, MAX_ER], and then unchanged |
| CalcEr.RemoveOutliers | backend/src/usecase/ee_index/calc_er.py:21-24 | the two in-place masked assignments leave the array equal to `Clipped` of its old contents |
| CalcEr.ErAt | backend/src/usecase/ee_index/calc_er.py:15-19 | ER has the equatorial H's length and is defined iff H and its median are and the difference is within the ER limits, and then equals that difference |
| CalcEr.ErWithinLimits | backend/src/usecase/ee_index/calc_er.py:21-24 | after clipping no defined ER value is above MAX_ER or below MIN_ER |
| CalcEr.ErIsOneShift | backend/src/usecase/ee_index/calc_er.py:15-19 | one baseline for the whole period: every defined ER value lies the same distance below its H |
| CalcEr.LocalTimes | backend/src/usecase/ee_index/calc_er.py:26-34 | the local-time array has `total_minutes` entries, none for a negative count |
| CalcEr.LocalTimesPointwise | backend/src/usecase/ee_index/calc_er.py:29-33 | an array whose entry i is the local time of minute i has exactly the loop's contents |
| CalcEr.LocalTimeAt | backend/src/usecase/ee_index/calc_er.py:29-33 | entry i is the time of day of start plus i minutes plus the station offset, below one day |
| CalcEr.NightMask | backend/src/usecase/ee_index/calc_er.py:36-38 | one flag per local-time entry |
| CalcEr.AlignedLengthsAgree | backend/src/usecase/ee_index/calc_er.py:26-47 | for a whole-minute start the H series and the local-time array have the same length, so `np.where` does not broadcast |
| CalcEr.NightErAt | backend/src/usecase/ee_index/calc_er.py:36-47 | for a whole-minute start the night ER fails only when H does, has one value per minute, equals ER where NIGHTSIDE contains the local time and is NaN elsewhere |
| CalcEr.Er.CalcEr | backend/src/usecase/ee_index/calc_er.py:15-19 | the method returns the ER of its `HComponent` |
| CalcEr.Er.GetLtArray | backend/src/usecase/ee_index/calc_er.py:26-34 | the loop appends exactly the local times of `LocalTimes` |
| CalcEr.Er.NighttimeMask | backend/src/usecase/ee_index/calc_er.py:36-38 | the method returns `NIGHTSIDE.contains` of each local time |
| CalcEr.Er.ExtractNightEr | backend/src/usecase/ee_index/calc_er.py:40-47 | the method returns the night ER |
| CalcEdst.EdstLength | backend/src/usecase/ee_index/calc_edst.py:18-19 | `days * 1440 + hours * 60 + minutes + 1` is the whole minutes of the period plus one, at least 1 |
| CalcEdst.NightResultsAt | backend/src/usecase/ee_index/calc_edst.py:21-25 | row i is the night ER of the i-th catalog station |
| CalcEdst.Stack | backend/src/usecase/ee_index/calc_edst.py:20-26 | a successful stack has one row per station, each of the matrix width |
| CalcEdst.StackSucceeds | backend/src/usecase/ee_index/calc_edst.py:20-26 | `np.vstack` succeeds iff every row succeeded and has the width fixed at line 20 |
| CalcEdst.StackAt | backend/src/usecase/ee_index/calc_edst.py:20-26 | row i of the matrix is the i-th row given |
| CalcEdst.StackFailurePersists | backend/src/usecase/ee_index/calc_edst.py:21-26 | once a row raises, the whole calculation raises that error |
| CalcEdst.Column | backend/src/usecase/ee_index/calc_edst.py:27 | a column has one entry per station |
| CalcEdst.ColumnMeans | backend/src/usecase/ee_index/calc_edst.py:27 | one mean per column |
| CalcEdst.StackedMeansNanAt | backend/src/usecase/ee_index/calc_edst.py:27 | a column mean is NaN iff the column is NaN in every row |
| CalcEdst.StackedMeansBounds | backend/src/usecase/ee_index/calc_edst.py:27 | a defined column mean lies within any bounds every defined entry keeps |
| CalcEdst.EdstShape | backend/src/usecase/ee_index/calc_edst.py:17-28 | EDst has one value per minute of the period, both ends included |
| CalcEdst.EdstNanAt | backend/src/usecase/ee_index/calc_edst.py:17-28 | EDst at minute j is NaN iff every catalog station's night ER is NaN there, and otherwise their NaN-aware mean |
| CalcEdst.NightErWithinLimits | backend/src/usecase/ee_index/calc_er.py:40-47 | every defined night ER value lies within the ER limits |
| CalcEdst.EdstWithinLimits | backend/src/usecase/ee_index/calc_edst.py:27 | every defined EDst value lies within the ER limits |
| CalcEdst.AlignedRowsSucceed | backend/src/usecase/ee_index/calc_edst.py:17-28 | for a whole-minute start, EDst fails iff some catalog station's H fails |
| CalcEdst.Edst.StationNightEr | backend/src/usecase/ee_index/calc_edst.py:22-25 | one loop pass computes the night ER of catalog station i |
| CalcEdst.Edst.CalcEdst | backend/src/usecase/ee_index/calc_edst.py:17-28 | the loop and the mean compute exactly the EDst of the period |
| CalcEuel.Shift | backend/src/usecase/ee_index/calc_euel.py:42 | `array - offset` keeps the length |
| CalcEuel.EuelIsErLessEdst | backend/src/usecase/ee_index/calc_euel.py:28 | without adjustment, over one whole-minute period, EUEL, ER and EDst have one value per minute, and EUEL is defined iff both operands are, with EUEL + EDst = ER |
| CalcEuel.AdjustedIsShifted | backend/src/usecase/ee_index/calc_euel.py:30-42 | with adjustment, EUEL fails iff the unadjusted EUEL or the offset fails, keeps its length, and every element is shifted by the same offset |
| CalcEuel.Euel.CalcEuel | backend/src/usecase/ee_index/calc_euel.py:13-45 | a stored result is returned unchanged whatever `adjust_nighttime` is; otherwise the EUEL is computed and, when no error is raised, stored |
| CalcEuel.GetNightEuelOffset | backend/src/usecase/ee_index/er_baseline.py:186-208 | `get_night_euel_offset` is the NaN-aware median of the station's night ER over the period |
| FactoryEe.EeFactory.constructor | backend/src/usecase/ee_index/factory_ee.py:20-25 | all four dictionaries start empty |
| FactoryEe.EeFactory.CreateH | backend/src/usecase/ee_index/factory_ee.py:27-43 | a cached key returns the cached instance and changes nothing; a new key gets a fresh `HComponent` for those parameters, added without touching other entries |
| FactoryEe.EeFactory.CreateEr | backend/src/usecase/ee_index/factory_ee.py:45-62 | the returned `Er` sits on `create_h`'s cached instance for the key; a miss adds exactly one `Er` and keeps every existing entry |
| FactoryEe.EeFactory.CreateEdst | backend/src/usecase/ee_index/factory_ee.py:64-79 | keyed by the period alone: a hit returns the cached instance, a miss adds one `Edst` for that period |
| FactoryEe.EeFactory.CreateEuel | backend/src/usecase/ee_index/factory_ee.py:81-99 | the returned `Euel` sits on the cached `Er` and `Edst` for its key, reusing any already cached; a miss adds a fresh `Euel` with no memoised values |
| FactoryEe.EeFactory.ClearCache | backend/src/usecase/ee_index/factory_ee.py:101-106 | all four dictionaries are emptied |
| ErBaseline.BaselineDate | backend/src/usecase/ee_index/er_baseline.py:158-184 | `_get_baseline_date` is a valid date-time |
| ErBaseline.BaselineDateIsLastDecade | backend/src/usecase/ee_index/er_baseline.py:171-184 | same year and month, midnight, day one more than a multiple of ten, never after the date and fewer than ten days before it, so the fallback at lines 181-182 never changes the day |
| ErBaseline.BaselineDateExamples | backend/src/usecase/ee_index/tests/test_er_baseline.py:43-58 | 1 April 2014 stays, 15 April goes to the 11th, 30 April to the 21st |
| ErBaseline.Pad | backend/src/usecase/ee_index/er_baseline.py:138 | a zero-filled `strftime` field is at least as wide as asked |
| ErBaseline.BaselineDayEnd | backend/src/usecase/ee_index/er_baseline.py:109-110 | the end of the baseline day is a valid date-time |
| ErBaseline.BaselineCoversOneDay | backend/src/usecase/ee_index/er_baseline.py:109-118 | `start + 1 day - 1 minute` is 23:59 of the same date, so the baseline is the median of 1440 minutes |
| ErBaseline.CatalogHasNoDate | backend/src/usecase/ee_index/er_baseline.py:87 | no station code collides with the "date" column |
| ErBaseline.LoadTableRows | backend/src/usecase/ee_index/er_baseline.py:62-65 | the row loop of `load_baseline_values` computes exactly the rows' values in file order, or the first row's error |
| ErBaseline.BaselineStore.constructor | backend/src/usecase/ee_index/er_baseline.py:25-26 | the store holds the given file contents |
| ErBaseline.BaselineStore.LoadBaselineValues | backend/src/usecase/ee_index/er_baseline.py:40-67 | a missing file loads as no values, otherwise the rows after the header |
| ErBaseline.BaselineStore.SaveBaselineValues | backend/src/usecase/ee_index/er_baseline.py:69-94 | the file becomes the rendering of the values |
| ErBaseline.BaselineStore.GetOrCalculateBaseline | backend/src/usecase/ee_index/er_baseline.py:120-156 | a stored value for the baseline date and station is returned and the file kept; otherwise the baseline is calculated and, on success, saved with exactly that entry added |
| ErBaseline.CollectStations | backend/src/usecase/ee_index/er_baseline.py:78-81 | the loop gathers every station code that has a value on some date |
| ErBaseline.WriteRows | backend/src/usecase/ee_index/er_baseline.py:86-94 | the header followed by the loop's rows is the rendered table, dates ascending |
| ErBaseline.CalculateBaselineMethod | backend/src/usecase/ee_index/er_baseline.py:96-118 | the method computes the median of the station's equatorial H over that UT day |
| BaselineCsv.RowOf | backend/src/usecase/ee_index/er_baseline.py:91-94 | a written row has one cell per field |
| BaselineCsv.Render | backend/src/usecase/ee_index/er_baseline.py:69-94 | the saved file holds the header and one row per date |
| BaselineCsv.RenderWith | backend/src/usecase/ee_index/er_baseline.py:86-94 | one row per date after the given header |
| BaselineCsv.RowDictOfWrittenRow | backend/src/usecase/ee_index/er_baseline.py:61-62 | `DictReader` maps each field name of a written row to the cell written for it |
| BaselineCsv.ParseWrittenCells | backend/src/usecase/ee_index/er_baseline.py:63-64 | the non-empty cells other than the date parse back as the saved station values |
| BaselineCsv.HeaderDistinct | backend/src/usecase/ee_index/er_baseline.py:84-87 | the header never repeats a field when no station is called "date" |
| BaselineCsv.RowRoundTrip | backend/src/usecase/ee_index/er_baseline.py:62-65 | a saved row loads back as its date and that date's values |
| BaselineCsv.LoadRowsStep | backend/src/usecase/ee_index/er_baseline.py:62-65 | a good row sets its date's values and leaves the other dates alone |
| BaselineCsv.RowsRoundTrip | backend/src/usecase/ee_index/er_baseline.py:62-65 | the first n saved rows load back as the values of the first n dates |
| BaselineCsv.RenderedRows | backend/src/usecase/ee_index/er_baseline.py:86-94 | the file is the header and then, for each date in ascending order, that date's row |
| BaselineCsv.SaveLoadRoundTrip | backend/src/usecase/ee_index/tests/test_er_baseline.py:60-75 | saving and then loading gives back exactly the values saved |
| BaselineCsv.SavedLayout | backend/src/usecase/ee_index/er_baseline.py:78-94 | the header is "date" then every station code once in ascending order, and row i+1 starts with the i-th date in ascending order |
| BaselineCsv.InsertChangesOneEntry | backend/src/usecase/ee_index/er_baseline.py:151-153 | storing a baseline sets exactly that (date, station) entry and keeps every other |
| BaselineCsv.LoadRowsFailurePersists | backend/src/usecase/ee_index/er_baseline.py:62-65 | once a row raises, loading raises that same error |
| BaselineCsv.LoadRowsNext | backend/src/usecase/ee_index/er_baseline.py:62-65 | a blank row changes nothing, a good row sets its date, a bad row ends the load with its error |
| BaselineCsv.StationsOfAdd | backend/src/usecase/ee_index/er_baseline.py:80-81 | adding one date's keys to the set is the union with that date's station codes |
| BaselineCsv.RowDictKeys | backend/src/usecase/ee_index/er_baseline.py:61-63 | a row's dictionary has exactly the header's field names as keys, however short the row |
| BaselineCsv.RowDictPadded | backend/src/usecase/ee_index/er_baseline.py:61-64 | a cell missing from a short row reads as absent, which `if value` skips like an empty cell, and a field whose columns all lie within the row keeps a present cell |
| BaselineCsv.RowLoadsPadded | backend/src/usecase/ee_index/er_baseline.py:61-65 | a row missing trailing cells loads exactly as if those cells were empty, when it reaches every "date" column |
| MovingAve.Window | backend/src/ee_index/calc/moving_ave.py:6-8 | the samples under the kernel are a stretch of the data, cut off at both ends |
| MovingAve.ConvolveSame | backend/src/ee_index/calc/moving_ave.py:6-8 | `np.convolve(..., mode="same")` is as long as the longer operand |
| MovingAve.Indicator | backend/src/ee_index/calc/moving_ave.py:6 | `~np.isnan(data)` has one entry per sample |
| MovingAve.Filled | backend/src/ee_index/calc/moving_ave.py:7 | `np.nan_to_num(data, nan=0)` has one entry per sample |
| MovingAve.IndicatorWindow | backend/src/ee_index/calc/moving_ave.py:6 | the indicator under the kernel is the indicator of the samples under it |
| MovingAve.FilledWindow | backend/src/ee_index/calc/moving_ave.py:7-8 | the filled data under the kernel is the filled samples under it |
| MovingAve.TotalIndicator | backend/src/ee_index/calc/moving_ave.py:6 | summing the indicator counts the valid samples |
| MovingAve.TotalFilled | backend/src/ee_index/calc/moving_ave.py:7-8 | summing NaN-as-zero adds up exactly the valid samples, so NaN adds nothing |
| MovingAve.ScaledQuotient | backend/src/ee_index/calc/moving_ave.py:5-9 | the common factor `1 / window` cancels in the quotient |
| MovingAve.MovingAveIsWindowMean | backend/src/ee_index/calc/moving_ave.py:4-11 | output length is the data length whenever the window is no longer; each output is NaN exactly when its window holds no valid sample and otherwise the mean of the valid samples, the window starting at i - window/2 and cut off at the edges |
| MovingAve.MovingAveEntry | backend/src/ee_index/calc/moving_ave.py:9-10 | output i is the NaN-aware mean of the samples under the kernel |
| MovingAve.MovingAveWithinBounds | backend/src/ee_index/calc/moving_ave.py:4-11 | a defined output lies within any bounds that hold for every valid sample |
| ErValue.PySlice | backend/src/ee_index/calc/er_value.py:87 | `s[a:b]` is the slice when both ends are in range, and empty when b is not after a |
| ErValue.DayMedians | backend/src/ee_index/calc/er_value.py:29-41 | one base value per day of `range(days)` |
| ErValue.Repeat | backend/src/ee_index/calc/er_value.py:47 | `np.repeat(base, 1440)` holds 1440 copies of each base value |
| ErValue.DayMediansAt | backend/src/ee_index/calc/er_value.py:29-41 | base value d is the median of minutes 1440d to 1440d+1439 of the H from the day start, NaN exactly when that day has no valid sample |
| ErValue.ErForDaysAt | backend/src/ee_index/calc/er_value.py:43-50 | with per-minute H, the ER has days*1440 values; minute i is its H less the base value of day i div 1440, defined iff both are and the difference is within the ER limits |
| ErValue.CalcErBaseValue | backend/src/ee_index/calc/er_value.py:29-41 | the loop appends exactly one median per day, in day order |
| ErValue.CalcErForDays | backend/src/ee_index/calc/er_value.py:43-50 | the method, with its in-place outlier removal, computes exactly `ErForDays` |
| ErValue.ErForMinReadsMinute | backend/src/ee_index/calc/er_value.py:52-57 | with one day of per-minute H the lookup never raises and is the one-day ER at index hour*60 + minute |
| ErValue.PeriodEnd | backend/src/ee_index/calc/er_value.py:103 | `start + timedelta(days=days, minutes=-1)` lies `days` days less one minute after the start |
| ErValue.PartOfADayLength | backend/src/ee_index/calc/er_value.py:76-88 | for an end not before the start minute, the part holds the minutes from start through end, both included |
| ErValue.ErForEdstLength | backend/src/ee_index/calc/er_value.py:97-113 | for a whole-minute start and at least one day the spliced ER never fails and has days*1440 values; a midnight start is exactly `calc_er_for_days` |
| ErValue.SplicedLength | backend/src/ee_index/calc/er_value.py:103-113 | for a start after midnight, head, full days and foot concatenate to days*1440 values |
| ErValue.HeadLength | backend/src/ee_index/calc/er_value.py:104 | the head runs from the start minute through 23:59 |
| ErValue.FootLength | backend/src/ee_index/calc/er_value.py:108-111 | the foot holds as many minutes as the start lies after midnight |
| ErValue.FullErLength | backend/src/ee_index/calc/er_value.py:90-95 | `calc_full_er` never fails and holds full_days*1440 values, none for zero days |
| ErValue.LocalMinuteTimes | backend/src/ee_index/calc/er_value.py:126-133 | one local time per minute of the days |
| ErValue.IsDaytime | backend/src/ee_index/calc/er_value.py:135-140 | one flag per minute of the days |
| ErValue.NightErAtMinute | backend/src/ee_index/calc/er_value.py:142-149 | for a whole-minute start the night ER never fails, has days*1440 values, is NaN where the local time is on the day side and the spliced ER elsewhere |
| EejDetection.FirstRoleError | backend/src/service/calc_eej_detection.py:49-61 | no error iff every station has the role asked for (is_dip in dip mode, is_offdip otherwise); else the error names the first station in list order without it |
| EejDetection.NewSelector | backend/src/service/calc_eej_detection.py:42-61 | the constructor and its validation loop yield the selector, or the `ValueError` of the first station out of role |
| EejDetection.HasNightData | backend/src/service/calc_eej_detection.py:95-101 | raises unless the series has exactly 1440 samples; then true iff minutes [0, 300) or [1140, 1440) hold a non-NaN value |
| EejDetection.BaselineInput | backend/src/service/calc_eej_detection.py:111-117 | 1440 samples: the input on [0, 300) and [1140, 1440), NaN on [300, 1140) |
| EejDetection.LocalDayParams | backend/src/service/calc_eej_detection.py:80-84 | the local-day period of the station is valid and starts and ends on whole minutes |
| EejDetection.LocalDay | backend/src/service/calc_eej_detection.py:80-83 | 00:00 through 23:59 of the local date, a valid period |
| EejDetection.DetectedShape | backend/src/service/calc_eej_detection.py:79-125 | the detection EUEL fails iff the EUEL fails or is not 1440 long; without night data it is the EUEL unchanged; with it, the one-hour moving average of EUEL less the interpolated night baseline |
| EejDetection.NanRatio | backend/src/service/calc_eej_detection.py:67 | the NaN ratio lies in [0, 1], and is NaN for an empty array |
| EejDetection.MinIndex | backend/src/service/calc_eej_detection.py:73 | `min` picks one of the candidates |
| EejDetection.MinIndexIsFirstMinimum | backend/src/service/calc_eej_detection.py:73 | with numeric keys `min` picks a least key, and no earlier key is as small |
| EejDetection.Ratios | backend/src/service/calc_eej_detection.py:65-71 | one NaN ratio per station |
| EejDetection.Gathered | backend/src/service/calc_eej_detection.py:65-71 | a successful gathering holds one EUEL per station |
| EejDetection.GatheredAt | backend/src/service/calc_eej_detection.py:65-71 | entry i of the gathering is station i's EUEL |
| EejDetection.Candidates | backend/src/service/calc_eej_detection.py:65-66 | one detection EUEL per station, in list order |
| EejDetection.GatheredAll | backend/src/service/calc_eej_detection.py:65-71 | when every station succeeds the gathering holds all their EUELs in order |
| EejDetection.SelectedIsFirstLeastNan | backend/src/service/calc_eej_detection.py:63-77 | the chosen station has the least NaN ratio, no earlier station ties it, its EUEL is returned with it, and a single candidate is always chosen |
| EejDetection.GatheredSucceeds | backend/src/service/calc_eej_detection.py:65-71 | the gathering succeeds when every station does |
| EejDetection.EuelForStation | backend/src/service/calc_eej_detection.py:79-93 | the method computes the detection EUEL of the station's local day, taken in UT with a fresh factory |
| EejDetection.GatheredStep | backend/src/service/calc_eej_detection.py:65-71 | one loop pass either raises the station's error or appends its EUEL |
| EejDetection.GatherEuels | backend/src/service/calc_eej_detection.py:64-71 | the loop computes exactly the gathering of every station's detection EUEL |
| EejDetection.FirstLeast | backend/src/service/calc_eej_detection.py:73 | the scan returns the index Python's `min` picks |
| EejDetection.SelectEuelData | backend/src/service/calc_eej_detection.py:63-77 | the method returns the selection over the stations' detection EUELs |
| EejDetection.GatheredFailurePersists | backend/src/service/calc_eej_detection.py:65-71 | once a station raises, `select_euel_data` raises that error |
| EejDetection.NoonMask | backend/src/service/calc_eej_detection.py:175-182 | one flag per minute of the local day |
| EejDetection.NoonMaskAt | backend/src/service/calc_eej_detection.py:18-24 | minute i of a local day is noon iff 540 <= i < 900, that is 09:00 through 14:59 |
| EejDetection.CompressRange | backend/src/service/calc_eej_detection.py:183-184 | a mask true exactly on [lo, hi) selects that slice |
| EejDetection.PeakDiffUsesNoon | backend/src/service/calc_eej_detection.py:172-185 | succeeds iff both series have 1440 samples; it is the dip noon maximum less the off-dip one over minutes 540-899, NaN iff either has a NaN there |
| EejDetection.EejCategoryOf | backend/src/service/calc_eej_detection.py:136-149 | disturbance iff Kp >= 4 or EDst < -30; else missing iff the peak is NaN; else normal iff peak >= 10, else peculiar |
| EejDetection.DisturbanceCategoryOf | backend/src/service/calc_eej_detection.py:159-169 | missing iff either input is NaN; otherwise disturbance iff Kp >= 4 or EDst < -30; else quiet |
| EejDetection.CategoriesAgree | backend/src/service/calc_eej_detection.py:136-169 | quiet iff `QuietDayDomain` calls the day quiet; a disturbed day is an EEJ disturbance; on a quiet day the EEJ category depends on the peak alone; a NaN Kp is missing for one and not disturbance for the other |
| EejDetection.DailyMinEdstFacts | backend/src/service/calc_eej_detection.py:201-209 | fails only where EDst fails; EDst of the local day has 1440 values; the minimum is NaN iff one of them is, and otherwise within the ER limits |
| EejDetection.DailyMinEdstOf | backend/src/service/calc_eej_detection.py:201-209 | the method computes `np.min` of EDst over the local day, with a fresh factory |
| PeculiarEej.HourMask | backend/src/dev/classify_peculiar_eej_category.py:34-35 | one flag per time, true iff its hour is 9 to 14 |
| PeculiarEej.ClassifyPeculiarEejType | backend/src/dev/classify_peculiar_eej_category.py:26-47 | ERROR iff no time has hour 9-14; otherwise `IndexError` iff a series does not match the times in length; otherwise UNDEVELOPED iff the correlation of the noon values is strictly above 0.6, and SUDDEN for everything else, a NaN correlation included |
| PeculiarEej.DayMinutes | backend/src/dev/classify_peculiar_eej_category.py:91-95 | 1440 times, one per minute of the local date |
| PeculiarEej.DayMinuteAt | backend/src/dev/classify_peculiar_eej_category.py:91-95 | time i is minute i after midnight, and its hour is 9-14 iff 540 <= i < 900 |
| PeculiarEej.ClassifyDay | backend/src/dev/classify_peculiar_eej_category.py:90-98 | over a local day the hour mask is the peak-difference noon mask, so the type is never ERROR; it fails iff a series is not 1440 long, and is UNDEVELOPED iff minutes 540-899 correlate above 0.6 |
| PeculiarEej.Assess | backend/src/dev/classify_peculiar_eej_category.py:75-86 | an assessed date has a peak difference, so both chosen EUELs are 1440 long |
| PeculiarEej.DayOutcome | backend/src/dev/classify_peculiar_eej_category.py:73-104 | one pass yields a record iff the day's category is peculiar, and that record carries the date and the region |
| PeculiarEej.PeculiarDayType | backend/src/dev/classify_peculiar_eej_category.py:87-103 | an assessed date never fails at the type step; a peculiar one records UNDEVELOPED or SUDDEN by the noon correlation |
| PeculiarEej.ProcessDay | backend/src/dev/classify_peculiar_eej_category.py:73-104 | the loop body computes exactly the date's outcome |
| PeculiarEej.DayCount | backend/src/dev/classify_peculiar_eej_category.py:69-71 | a valid period touches at least one date |
| PeculiarEej.DayOf | backend/src/dev/classify_peculiar_eej_category.py:67-72 | the outcome is defined for every valid date |
| PeculiarEej.OutcomesOver | backend/src/dev/classify_peculiar_eej_category.py:67-72 | one outcome per date visited |
| PeculiarEej.Outcomes | backend/src/dev/classify_peculiar_eej_category.py:67-72 | one outcome per date from the start date to the end date |
| PeculiarEej.CollectStep | backend/src/dev/classify_peculiar_eej_category.py:87-104 | a failing date ends the run with its error, a non-peculiar date adds nothing, a peculiar date appends its one record |
| PeculiarEej.CollectFailurePersists | backend/src/dev/classify_peculiar_eej_category.py:67-105 | once a date raises, the aggregation raises that error |
| PeculiarEej.ProcessDayAs | backend/src/dev/classify_peculiar_eej_category.py:73-104 | the loop body returns the outcome of its date |
| PeculiarEej.RunDays | backend/src/dev/classify_peculiar_eej_category.py:66-105 | the date loop collects exactly the records of the dates from start to end, in order, or the first error |
| PeculiarEej.AggregatePeculiarEejData | backend/src/dev/classify_peculiar_eej_category.py:65-105 | the method returns the aggregation over the period |
| PeculiarEej.CollectMembers | backend/src/dev/classify_peculiar_eej_category.py:87-104 | a successful run passed every date, has at most one record per date, keeps each record produced and invents none |
| PeculiarEej.CollectOrdered | backend/src/dev/classify_peculiar_eej_category.py:67-104 | records dated by position come out in strictly increasing date order |
| PeculiarEej.OutcomeAt | backend/src/dev/classify_peculiar_eej_category.py:67-72 | outcome i is that of start date plus i days |
| PeculiarEej.OutcomesDated | backend/src/dev/classify_peculiar_eej_category.py:99-103 | a record at position i carries the date i days after the start |
| PeculiarEej.RecordOfPeculiarDay | backend/src/dev/classify_peculiar_eej_category.py:87-103 | a record is for its date and region, and that date's category is peculiar |
| PeculiarEej.DateOfRun | backend/src/dev/classify_peculiar_eej_category.py:67-104 | in a successful run every date was assessed, and a peculiar one has a record |
| PeculiarEej.AggregatedRecords | backend/src/dev/classify_peculiar_eej_category.py:65-105 | a successful run assessed every date from start to end and holds exactly one record per peculiar date and none for any other, in date order, each inside the period and for the region |
| PeculiarEej.ScriptRun | backend/src/dev/classify_peculiar_eej_category.py:112-118 | the script's own period from 1 to 31 January 2008 is valid |
| PeculiarEej.AsWrittenRecordsNothing | backend/src/dev/classify_peculiar_eej_category.py:75-80 | as written the selector call passes the region as an extra argument and raises `TypeError`, so the 31-date run records nothing |
| MonthBins.Ratio | backend/src/dev/plot/plot_peculiar_eej_ratio_by_month.py:22-27 | the ratio is never negative, is 0.0 for a month without quiet days and otherwise times the quiet count equals the event count times 100 |
| MonthBins.RatioAtMostHundred | backend/src/dev/plot/plot_peculiar_eej_ratio_by_month.py:22-27 | for a month with quiet days the ratio is at most 100 exactly when the events do not outnumber the quiet days |
| MonthBins.QuietIn | backend/src/dev/plot/plot_peculiar_eej_ratio_by_month.py:55-58 | the quiet days counted for a month are exactly the quiet dates in that month |
| MonthBins.EventsIn | backend/src/dev/plot/plot_peculiar_eej_ratio_by_month.py:61-65 | a month never counts more events than the list holds |
| MonthBins.EventsInStep | backend/src/dev/plot/plot_peculiar_eej_ratio_by_month.py:62-65 | one more event raises its own month's count by one and no other month's |
| MonthBins.QuietDatesOf | backend/src/dev/plot/plot_peculiar_eej_ratio_by_month.py:47 | the set of quiet dates holds exactly the dates of the quiet entries |
| MonthBins.DistinctAtMostOccurrences | backend/src/dev/plot/plot_peculiar_eej_ratio_by_month.py:47-58 | counting distinct quiet days never gives more than counting the entries with repetition |
| MonthBins.RepeatsCountTwice | backend/src/dev/plot/plot_peculiar_eej_ratio_by_month.py:47-65 | an event date listed twice counts two events, the same date listed twice as a quiet entry counts one quiet day |
| MonthBins.MonthBinsOf | backend/src/dev/plot/plot_peculiar_eej_ratio_by_month.py:67-76 | twelve bins, bin i for month i + 1 |
| MonthBins.CountQuiet | backend/src/dev/plot/plot_peculiar_eej_ratio_by_month.py:55-58 | after the loop the counter holds, for every month, the number of quiet dates in it (0 for months never seen) |
| MonthBins.QuietInAdd | backend/src/dev/plot/plot_peculiar_eej_ratio_by_month.py:56-58 | counting one more date raises its own month by one and no other month |
| MonthBins.CountEvents | backend/src/dev/plot/plot_peculiar_eej_ratio_by_month.py:61-65 | after the loop the counter holds, for every month, the number of events in it, repetitions included |
| MonthBins.BuildMonthBins | backend/src/dev/plot/plot_peculiar_eej_ratio_by_month.py:49-76 | the method returns exactly the twelve bins of the counts |
| MonthBins.EventTotalStep | backend/src/dev/plot/plot_peculiar_eej_ratio_by_month.py:61-65 | one more event adds one to the total of the months it falls in |
| MonthBins.QuietTotalStep | backend/src/dev/plot/plot_peculiar_eej_ratio_by_month.py:55-58 | one more quiet date adds one to the total of the months it falls in |
| MonthBins.EventsAllBinned | backend/src/dev/plot/plot_peculiar_eej_ratio_by_month.py:61-76 | with valid dates the twelve event counts add up to the length of the event list: no event is lost or counted twice |
| MonthBins.EventTotalZero | backend/src/dev/plot/plot_peculiar_eej_ratio_by_month.py:61-76 | no events, no counts |
| MonthBins.QuietTotalZero | backend/src/dev/plot/plot_peculiar_eej_ratio_by_month.py:55-76 | no quiet days, no counts |
| MonthBins.QuietAllBinned | backend/src/dev/plot/plot_peculiar_eej_ratio_by_month.py:55-76 | with valid dates the twelve quiet counts add up to the number of distinct quiet dates |
| DstFetch.MonthUrls | backend/dst/dst_data.py:11-16 | three addresses, one per tier |
| DstFetch.MonthStampValue | backend/dst/dst_data.py:13-15 | for years 0-9999 the year-month stamp is six digits whose value is year·100 + month |
| DstFetch.MonthUrlsDistinct | backend/dst/dst_data.py:12-16 | distinct months are fetched from distinct addresses on every tier |
| DstFetch.StampsDiffer | backend/dst/dst_data.py:13-15 | distinct (year, month) pairs with valid months give distinct year·100 + month |
| DstFetch.FramedDiffer | backend/dst/dst_data.py:13-15 | two equal-length stamps that differ give differing addresses |
| DstFetch.FirstOk | backend/dst/dst_data.py:17-26 | the fetch succeeds iff some address answers 200, and then it returns the text of the first one that does |
| DstFetch.FetchTiers | backend/dst/dst_data.py:17-26 | the loop over the tiers, with its try/except and break, returns what FirstOk describes |
| DstFetch.LStrip | backend/dst/dst_data.py:36 | stripping never lengthens a line |
| DstFetch.RStrip | backend/dst/dst_data.py:36 | stripping never lengthens a line |
| DstFetch.StripKeepsStart | backend/dst/dst_data.py:36-41 | a line that starts with a non-space character keeps it first after stripping |
| DstFetch.RStripKeepsStart | backend/dst/dst_data.py:36-41 | stripping at the right keeps the first character of a line that does not start with white space |
| DstFetch.FirstHeading | backend/dst/dst_data.py:35-37 | the index found is the first line whose stripped text starts with "DAY", and none is found iff no line does |
| DstFetch.DigitRun | backend/dst/dst_data.py:43 | the run is all digits and stops at the first non-digit |
| DstFetch.RowsNext | backend/dst/dst_data.py:40-46 | a blank line or a line without numbers adds nothing; any other line adds its numbers after the first |
| DstFetch.ParseDstText | backend/dst/dst_data.py:32-46 | the loop over the lines after the heading returns the rows of the table, or the error of a text without a heading |
| DstFetch.TableLines | backend/dst/dst_data.py:40-46 | one line per day row |
| DstFetch.IntTextNoBreaks | backend/dst/dst_data.py:33 | a number written out holds no line break |
| DstFetch.JoinIntsNoBreaks | backend/dst/dst_data.py:33 | numbers joined by spaces hold no line break |
| DstFetch.DigitRunOf | backend/dst/dst_data.py:43 | a digit run ends where the digits end |
| DstFetch.DigitsToken | backend/dst/dst_data.py:43 | a digit run followed by a non-digit is read as its value |
| DstFetch.NegativeTokenStep | backend/dst/dst_data.py:43 | a minus sign before a digit run is read as the negated value |
| DstFetch.TokensOfNegative | backend/dst/dst_data.py:43 | one scan step over a text that starts with a minus sign and a digit |
| DstFetch.SignedToken | backend/dst/dst_data.py:43 | a minus sign, a digit run and a non-digit read as one negative number |
| DstFetch.SignedTokenAt | backend/dst/dst_data.py:43 | the same with the text split after the sign |
| DstFetch.SignedParts | backend/dst/dst_data.py:43 | the sign, digits and rest of such a text sit where the scan looks for them |
| DstFetch.IntTokens | backend/dst/dst_data.py:43-46 | any integer written out and followed by a space or nothing is read back as that integer |
| DstFetch.JoinTokens | backend/dst/dst_data.py:43-46 | numbers joined by spaces are read back as exactly those numbers |
| DstFetch.RowOfTableLine | backend/dst/dst_data.py:40-46 | each day line of a table gives back that day's values |
| DstFetch.RowsOfLines | backend/dst/dst_data.py:40-46 | lines that each give one row give those rows, in order |
| DstFetch.FirstHeadingAfter | backend/dst/dst_data.py:35-37 | with no heading in the preamble, the first heading is the line after it |
| DstFetch.TableNoBreaks | backend/dst/dst_data.py:33 | no day line holds a line break |
| DstFetch.TableRows | backend/dst/dst_data.py:40-46 | the day lines of a table read back as the table |
| DstFetch.PageLines | backend/dst/dst_data.py:33 | splitting the page text gives back its lines |
| DstFetch.ParseOfLines | backend/dst/dst_data.py:32-46 | with a heading at h, the parse is the rows of the lines after h |
| DstFetch.ParseTable | backend/dst/dst_data.py:32-47 | a preamble without "DAY", a heading and one line per day parse back into exactly those day rows |
| DstFetch.FetchDstDataOf | backend/dst/dst_data.py:10-47 | the method returns the fetch described by FetchDstData, its three errors included |
| DstFetch.FetchDstDataReadsTable | backend/dst/dst_data.py:10-47 | when tier i is the first to answer 200 and its pre element holds a DAY table, the month's rows are that table's rows |
| DstPeriod.AddMonth | backend/dst/dst_data.py:80 | `relativedelta(months=1)` gives a valid date in the next month, on the same day or clamped to that month's last day |
| DstPeriod.FirstOfMonth | backend/dst/dst_data.py:87-88 | the first of a date's month is a valid date of the same month |
| DstPeriod.MonthOrder | backend/dst/dst_data.py:72 | a date of an earlier month is an earlier date, and a date not after another lies in the same or an earlier month |
| DstPeriod.SameMonthOrdinal | backend/dst/dst_data.py:76 | within one month, ordinals differ as the days do |
| DstPeriod.NextFirstOrdinal | backend/dst/dst_data.py:76-80 | the first of the next month lies as many days on as the month is long |
| DstPeriod.ValidateYm | backend/dst/dst_data.py:54-66 | an accepted pair of months has months in 1..12 |
| DstPeriod.ValidateYmAccepts | backend/dst/dst_data.py:54-66 | the `(year, month)` validation passes iff both months are in 1..12 and January 1963, the start, the end and the current month come in that order |
| DstPeriod.ValidateDatesAccepts | backend/src/dst/dst_data.py:54-60 | the date validation passes iff 1963-01-01, the start, the end and today come in that order |
| DstPeriod.FlattenWidth | backend/dst/dst_data.py:78-79 | extending by rows of 24 values gives 24 values per row |
| DstPeriod.FlattenStep | backend/dst/dst_data.py:78-79 | extending by one more row appends exactly that row |
| DstPeriod.PrependNothing | backend/dst/dst_data.py:70 | a loop started from an empty list gives what the rest of the loop gives |
| DstPeriod.PrependTwice | backend/dst/dst_data.py:79 | extending in two steps is extending by both parts |
| DstPeriod.Calm | backend/dst/dst_data.py:77 | a fetcher serving one row of 24 values per day exists |
| DstPeriod.DaysToRead | backend/dst/dst_data.py:73-76 | the days read from a month lie between 1 and the month's length |
| DstPeriod.GetDstValues | backend/dst/dst_data.py:69-81 | the month loop returns the values the month-by-month reading describes, or the first fetch error or `IndexError` |
| DstPeriod.ValuesFromMonth | backend/dst/dst_data.py:77-80 | one month of the loop: its fetch error, an `IndexError` for a month with fewer rows than days read, or its rows before the rest |
| DstPeriod.FlattenExtend | backend/dst/dst_data.py:78-79 | the inner loop extends the list by the month's first rows |
| DstPeriod.ValuesFromLength | backend/dst/dst_data.py:69-81 | with every month served in full, the loop succeeds with 24 values per day it reads |
| DstPeriod.ReadCountFromFirst | backend/dst/dst_data.py:72-80 | a cursor on the first of a month reads every day from the cursor through the end date |
| DstPeriod.ValuesFromSkipsDays | backend/dst/dst_data.py:74-80 | as written, 2020-01-15 to 2020-03-20 reads 48 days where the months from January 1st hold 80 |
| DstPeriod.GetDstValuesFixedReadsEveryDay | backend/dst/dst_data.py:69-81 | with the cursor on the first of the start month, the values cover every day from that first through the end date, 24 per day |
| DstPeriod.PySlice | backend/src/dst/dst_data.py:81 | a Python slice with non-negative ends has clamped ends and is empty when they cross |
| DstPeriod.GetDstRows | backend/src/dst/dst_data.py:63-83 | the date version validates, then returns the rows the month-by-month slicing describes |
| DstPeriod.RowsFromStep | backend/src/dst/dst_data.py:68-82 | one month of the loop: its slice from the start day through the end day, then the rest |
| DstPeriod.RowsFromLength | backend/src/dst/dst_data.py:67-83 | with one row per day in every month the loop succeeds with the counted number of rows |
| DstPeriod.RowCountLaterMonth | backend/src/dst/dst_data.py:75-80 | a month after the start's is counted from day 1 through the end's day or its own last day |
| DstPeriod.RowCountAfterStart | backend/src/dst/dst_data.py:67-82 | from the first of a later month every day through the end date is counted |
| DstPeriod.RowCountStartMonth | backend/src/dst/dst_data.py:70-80 | the start's month is counted from the start's day |
| DstPeriod.RowCountFromFirst | backend/src/dst/dst_data.py:67-82 | from the first of the start month the loop counts every day from the start date through the end date |
| DstPeriod.RowsFromSkipsLastMonth | backend/src/dst/dst_data.py:66-82 | as written, 2020-01-15 to 2020-02-10 gives 17 rows where the range holds 27 days |
| DstPeriod.DstRowsFixedReadsEveryDay | backend/src/dst/dst_data.py:63-83 | with the cursor on the first of the start month, the result succeeds iff the validation does, and then holds one row per day of the range |
| DstPeriod.DisturbedIn | backend/dst/dst_data.py:92-96 | a month's scan succeeds iff no disturbed row lies past the month's last day (where `date()` raises) |
| DstPeriod.DisturbedInMembers | backend/dst/dst_data.py:92-96 | a month lists exactly the days of its disturbed rows, in increasing day order |
| DstPeriod.DisturbedFromSound | backend/dst/dst_data.py:90-97 | every date listed is a disturbed day of a visited month |
| DstPeriod.DisturbedFromComplete | backend/dst/dst_data.py:90-97 | from the first of a month every disturbed day of every month through the end's month is listed |
| DstPeriod.DisturbedFromOrdered | backend/dst/dst_data.py:90-97 | the dates come out in strictly increasing calendar order |
| DstPeriod.ConcatOrdered | backend/dst/dst_data.py:90-97 | one month's dates in order followed by later months' dates in order are in order |
| DstPeriod.DisturbedDaysExact | backend/dst/dst_data.py:84-98 | an answer means the validation passed, and lists exactly the disturbed days of the months from the start's through the end's, in calendar order |
| DstPeriod.CollectDisturbed | backend/dst/dst_data.py:89-98 | the month loop returns what the month-by-month scan describes |
| DstPeriod.ScanMonth | backend/dst/dst_data.py:92-96 | the inner loop appends the dates of the month's disturbed rows |
| DstPeriod.DisturbedFromMonth | backend/dst/dst_data.py:91-97 | one month of the loop: its fetch error, its scan error, or its dates before the rest |
| DstPeriod.DisturbedInRow | backend/dst/dst_data.py:93-96 | a calm row adds nothing, a disturbed row past the month's end raises, any other disturbed row appends its date |
| DstPeriod.DisturbedInFailsOn | backend/dst/dst_data.py:93-96 | a disturbed row past the month's end makes the month fail |
| DstPeriod.DisturbedInFailurePersists | backend/dst/dst_data.py:92-96 | once the month's scan has raised, it stays raised |
| DstPeriod.FetchDisturbedDays | backend/dst/dst_data.py:84-98 | the `(year, month)` version returns the validation's error or the scan of the months from the first of the start month |
| DstPeriod.FetchDisturbedDaysByDate | backend/src/dst/dst_data.py:86-98 | the date version returns the validation's error or the scan of the months from the start date |
| DstPeriod.Stormy | backend/src/dst/dst_data.py:91-93 | a fetcher serving every day with every hour below -50 nT exists |
| DstPeriod.DisturbedDaysByDateSkipsLastMonth | backend/src/dst/dst_data.py:89-97 | as written, 2020-01-15 to 2020-02-10 with every day disturbed does not list 2020-02-01 |
| DstPeriod.DisturbedDaysByDateFixedExact | backend/src/dst/dst_data.py:86-98 | with the cursor on the first of the start month an answer lists exactly the disturbed days of the months from the start's through the end's, in calendar order |
| BuildIaga.DayOfYear | backend/src/service/file_exporter/build_iaga.py:69 | the day of the year lies between 1 and the year's length and is the day's ordinal counted from the year's start |
| BuildIaga.FillExactly | backend/src/service/file_exporter/build_iaga.py:102 | zero-filling a number below 10^width gives exactly width digits that read back as the number |
| BuildIaga.TimeTextFields | backend/src/service/file_exporter/build_iaga.py:71-75 | minute m's time is twelve characters of the form HH:MM:00.000 with HH·60 + MM = m |
| BuildIaga.DateTextFields | backend/src/service/file_exporter/build_iaga.py:76 | for years 0-9999 the date is ten characters YYYY-MM-DD whose fields read back as the date |
| BuildIaga.IagaRecords | backend/src/service/file_exporter/build_iaga.py:52-90 | the records succeed iff every value list reaches the record total, and then there are exactly days·1440 of them |
| BuildIaga.RecordsOf | backend/src/service/file_exporter/build_iaga.py:64-90 | the first total records succeed iff every list reaches the total, and then there are that many |
| BuildIaga.MinuteSplit | backend/src/service/file_exporter/build_iaga.py:72-73 | index day·1440 + m splits back into day and m |
| BuildIaga.RecordAtMinute | backend/src/service/file_exporter/build_iaga.py:67-89 | the record at minute m of day d carries day d's date and day of the year and minute m's time |
| BuildIaga.MinuteBelowTotal | backend/src/service/file_exporter/build_iaga.py:67-71 | every index of the nested loops lies below days·1440 |
| BuildIaga.BuildIagaRecords | backend/src/service/file_exporter/build_iaga.py:52-90 | the nested day and minute loops with their running index return the records IagaRecords describes, or the `IndexError` of a short list |
| BuildIaga.RecordsExtend | backend/src/service/file_exporter/build_iaga.py:78-89 | appending the record of the running index keeps every record at its index |
| BuildIaga.RecordsFail | backend/src/service/file_exporter/build_iaga.py:83-86 | an index below the total that some list does not reach makes the call raise |
| BuildIaga.RecordsMatch | backend/src/service/file_exporter/build_iaga.py:64-90 | records built one per index below the total are the call's records |
| BuildIaga.RecordsByMinute | backend/src/service/file_exporter/build_iaga.py:66-89 | record k carries the date k div 1440 days after the start's date, a time that reads back as minute k mod 1440, and the k-th value of each list |
| BuildIaga.RecordsShareDay | backend/src/service/file_exporter/build_iaga.py:67-76 | all records of one day share that day's date and day of the year |
| BuildIaga.PadRight | backend/src/service/file_exporter/build_iaga.py:95-103 | left-aligned padding keeps the text and fills with spaces up to the width |
| BuildIaga.ContentLines | backend/src/service/file_exporter/build_iaga.py:92-105 | one line per metadata entry, one heading, one per record |
| BuildIaga.ContentLineAt | backend/src/service/file_exporter/build_iaga.py:94-104 | line i is a metadata line, the heading or record line, by its position |
| BuildIaga.BuildIagaContent | backend/src/service/file_exporter/build_iaga.py:92-105 | the writes into the buffer give every line followed by a newline |
| BuildIaga.WriteLine | backend/src/service/file_exporter/build_iaga.py:93-104 | one more write appends the line and its newline |
| BuildIaga.PadRightNoBreaks | backend/src/service/file_exporter/build_iaga.py:95-103 | padding adds no line break |
| BuildIaga.FormatIntNoBreaks | backend/src/service/file_exporter/build_iaga.py:102 | a zero-filled number holds no line break |
| BuildIaga.RecordLineNoBreaks | backend/src/service/file_exporter/build_iaga.py:101-103 | a record line holds no line break when its fields hold none |
| BuildIaga.MetaLineNoBreaks | backend/src/service/file_exporter/build_iaga.py:95 | a metadata line holds no line break when its key and value hold none |
| BuildIaga.HeaderNoBreaks | backend/src/service/file_exporter/build_iaga.py:96-99 | the heading holds no line break |
| BuildIaga.ContentLinesLaidOut | backend/src/service/file_exporter/build_iaga.py:92-105 | the lines are the metadata lines, the heading and the record lines, in order |
| BuildIaga.IagaContentLines | backend/src/service/file_exporter/build_iaga.py:92-105 | when no metadata or value text holds a line break, the content reads back line by line as the metadata lines, the heading and one line per record, in order |
| BuildIaga.ContentLinesNoBreaks | backend/src/service/file_exporter/build_iaga.py:92-105 | under the same condition no line holds a line break |
| BuildIaga.CellSlices | backend/src/service/file_exporter/build_iaga.py:101-103 | the cells of a line sit at the offsets of the cells before them |
| BuildIaga.SevenCells | backend/src/service/file_exporter/build_iaga.py:101-103 | grouping the seven cells does not move the first three |
| BuildIaga.RecordLineColumns | backend/src/service/file_exporter/build_iaga.py:101-103 | a record line has the date in columns 0-9, the time in 11-22 and the day of the year, zero-filled to three digits, in 24-26 |
| TextFormat.DigitChar | backend/src/service/file_exporter/build_iaga.py:75 | a digit below ten is written as a digit character |
| TextFormat.DigitValue | backend/dst/dst_data.py:46 | a digit character reads as a value below ten |
| TextFormat.Decimal | backend/src/service/file_exporter/build_iaga.py:102 | `str(n)` of a natural number is a non-empty digit run without a leading zero that reads back as n |
| TextFormat.Zeros | backend/src/service/file_exporter/build_iaga.py:102 | k zeros are k digits |
| TextFormat.ZeroFill | backend/src/service/file_exporter/build_iaga.py:102 | zero-filling gives digits, as many as the width or as `str(n)` has, whichever is more |
| TextFormat.ZerosValue | backend/src/service/file_exporter/build_iaga.py:102 | a run of zeros reads as zero |
| TextFormat.Pow10 | backend/src/service/file_exporter/build_iaga.py:102 | a power of ten is at least one |
| TextFormat.ConcatValue | backend/dst/dst_data.py:46 | two digit runs read one after the other give the first shifted by the second's length plus the second |
| TextFormat.ShiftStep | backend/dst/dst_data.py:46 | reading one more digit shifts the value by ten |
| TextFormat.ZeroFillValue | backend/src/service/file_exporter/build_iaga.py:75 | the zero fill reads back as the number it fills |
| TextFormat.FormatIntValue | backend/src/service/file_exporter/build_iaga.py:102 | a formatted integer reads back as that integer: a minus sign for a negative one, then digits with its absolute value |
| TextFormat.DecimalLength | backend/src/service/file_exporter/build_iaga.py:102 | `str(n)` of a number below 10^k has at most k digits |
| TextLines.BreakAt | backend/dst/dst_data.py:33 | the first line boundary: no boundary before it, a boundary at it unless it is the end |
| TextLines.NoBreaksConcat | backend/dst/dst_data.py:33 | two texts without boundaries joined hold none |
| TextLines.BreakAtLine | backend/dst/dst_data.py:33 | a line without boundaries followed by a newline ends at its own length |
| TextLines.SplitText | backend/dst/dst_data.py:33 | `splitlines` of lines without boundaries, each ended by a newline, gives back those lines |
| TextLines.TextAppend | backend/src/service/file_exporter/build_iaga.py:93-104 | writing one more line appends that line and its newline |
| Lexicographic.LessIrreflexive | backend/src/usecase/ee_index/er_baseline.py:84 | no string sorts before itself |
| Lexicographic.LessTotal | backend/src/usecase/ee_index/er_baseline.py:84 | of two distinct strings one sorts before the other |
| Lexicographic.LessAsymmetric | backend/src/usecase/ee_index/er_baseline.py:84 | two strings never sort before each other |
| Lexicographic.LessTransitive | backend/src/usecase/ee_index/er_baseline.py:84 | sorting before is transitive |
| Lexicographic.LeastExists | backend/src/usecase/ee_index/er_baseline.py:84 | every non-empty set of strings has a least element |
| Lexicographic.LeastOf | backend/src/usecase/ee_index/er_baseline.py:84 | the least element is found by removing one element at a time |
| Lexicographic.Least | backend/src/usecase/ee_index/er_baseline.py:84 | the least element of a non-empty set is in the set and sorts before every other member |
| Lexicographic.Sorted | backend/src/usecase/ee_index/er_baseline.py:84-91 | `sorted` of a set of strings holds exactly its members, each once, in strictly increasing order |
| Lexicographic.SortedDistinct | backend/src/usecase/ee_index/er_baseline.py:84 | entries of a strictly sorted list are distinct |
| SanitizeNp.SanitizeNp | backend/src/service/sanitize_np.py:14-15 | one entry per input value |
| MagdasStation.LookupFrom | backend/src/service/ee_index/constant/magdas_station.py:13-53 | searching from entry k finds a station iff some later entry has the code, and what it finds is a catalog station with that code |
| Region.FromCodeFrom | backend/src/domain/region.py:23-28 | searching from member k succeeds iff some later member has the code, and returns a region with that code |
| GmData.GMDataLoader.Load | backend/src/repository/gm_data.py:20-24 | the loader keeps its station code and date, and its four series are those `_load_gm` reads for them |
| CalcHComponent.SanitizedH | backend/src/usecase/ee_index/calc_h_component.py:28-33 | a decoded day gives one sanitized H value per minute |
| CalcHComponent.HComponent.constructor | backend/src/usecase/ee_index/calc_h_component.py:39-43 | the object keeps the station and the period's UT start and end |
| CalcEr.Er.constructor | backend/src/usecase/ee_index/calc_er.py:12-13 | the object keeps its `HComponent` |
| CalcEdst.NightResults | backend/src/usecase/ee_index/calc_edst.py:21-25 | one night-ER result per catalog station visited |
| CalcEdst.Edst.constructor | backend/src/usecase/ee_index/calc_edst.py:11-15 | the object keeps its period |
| CalcEuel.Euel.constructor | backend/src/usecase/ee_index/calc_euel.py:8-11 | the object keeps its ER and EDst and starts with nothing stored |

## Left out

- Network and HTML. `requests.get` is a parameter of `DstFetch.FetchDstData` that answers with a response or an exception. BeautifulSoup's `find("pre").get_text()` is a parameter that answers with the text or `None`. The debug `print` calls are not modelled.
- Floating point. Cosine, `nanmedian`, Pearson correlation, `interpolate_nan` and `calc_moving_avg` with its NaN threshold are kept abstract. They carry only their length and NaN contracts. `float32` storage and rounding are not modelled, and sums and means are exact reals.
- Files in the source that this model does not include:
  - `src/constants/ee_index.py`: its limits are the `Thresholds` parameter.
  - The NaN calculator.
  - The interpolation and moving-average services.
  - The raw-file globbing helper: the archive map stands in for it.
  - The Kp service: the daily maximum Kp is a parameter.
  - `src/utils/date.py`.
- `lru_cache` in `factory_ee.py` is not modelled. Only the four dictionaries are.
- Metadata. The values of `build_iaga_meta_data` are taken as already formatted text. The `:.2f` formatting of a float is a parameter (`Fixed2`). The UTF-8 encoding of the content is not modelled.
- CSV. Quoting and the csv module's dialect are not modelled. Cells are plain comma-separated text. The file itself is a string parameter.
- Plotting, the frontend, the HTTP handlers, the zip and temp-file plumbing, the pandas repositories and the lunar code are outside the core.
- `get_night_euel_offset` is written in `er_baseline.py`. It is modelled as `CalcEuel.GetNightEuelOffset`, next to its one caller.
- RawDataReader: the minute reader's header loop ends only if the file holds a 0x1A byte. Every reader therefore requires one. An archive whose files all hold one is `EeEnv.Readable`.
- GmData.GMDataLoader.Load: the constructor requires the load to succeed. The `FileNotFoundError` for several matching files is stated by `GmData.LoadGm`.
- PeculiarEej.RunDays: the loop reads the module-level `dip_stations` and `offdip_stations` of the script's entry point, not the object's own lists. The model uses the object's lists, which are the same lists in the script's own run.
- PeculiarEej.ScriptRun: the script names HUA as a dip station. HUA is not in the station table, so the modelled run uses ANC alone.
- BaselineCsv.LoadRow: a row too short to reach its "date" column is refused. `DictReader` fills the missing date with `None`, and `load_baseline_values` stores the row under the key `None`. The loaded dictionary here is keyed by date strings only. Shorter rows that do reach the date column are modelled, and their missing cells are skipped.
- LoadBaselineValues: for the same reason, a file with a row too short to reach its "date" column fails to load here, where the source loads that row under the key `None`.
- DstFetch.Tokens: reads the ASCII digits 0-9 only. Python's `\d` on a `str` also matches every other Unicode decimal digit.

## Findings

`get_dst_values` (backend/dst/dst_data.py:71-80) and the month loops of `backend/src/dst/dst_data.py` start their month cursor on the start date, not on the first of the start month. The table below gives the inputs where this loses days.

| source | as written | input that shows it | evidently intended | confidence | as-written member | corrected member |
|---|---|---|---|---|---|---|
| backend/src/dev/classify_peculiar_eej_category.py:75-80 | `BestEuelSelectorForEej(self.region, stations, lt_date, is_dip)` passes four arguments to an initialiser that takes three (`stations`, `local_date`, `is_dip`), so the first date raises `TypeError` | the script's own run, 2008-01-01 to 2008-01-31: 31 dates and no record | build each selector from the stations, the date and the role, and record every peculiar date | not executed | PeculiarEej.AsWrittenRecordsNothing | PeculiarEej.AggregatedRecords |
| backend/dst/dst_data.py:71-80 | the month cursor starts on `start_date` and keeps its day. Every month but the last is read through the day before that day | 2020-01-15 to 2020-03-20: 48 days are read where the months from January 1st hold 80 | start the cursor on the first of the start month, so that every month is read from day 1 | not executed | DstPeriod.ValuesFromSkipsDays | DstPeriod.GetDstValuesFixedReadsEveryDay |
| backend/src/dst/dst_data.py:66-82 | the month cursor starts on `start_date` and keeps its day, so the loop stops before the end's month when the end's day is smaller | 2020-01-15 to 2020-02-10: 17 rows for a range of 27 days | step the months from the first of the start month, still slicing the start month from the start's day | not executed | DstPeriod.RowsFromSkipsLastMonth | DstPeriod.DstRowsFixedReadsEveryDay |
| backend/src/dst/dst_data.py:86-97 | the same cursor makes `fetch_disturbued_days` skip the end's month when the end's day is smaller than the start's | 2020-01-15 to 2020-02-10 with every hour below -50 nT: 2020-02-01 is not listed | step the months from the first of the start month | not executed | DstPeriod.DisturbedDaysByDateSkipsLastMonth | DstPeriod.DisturbedDaysByDateFixedExact |
