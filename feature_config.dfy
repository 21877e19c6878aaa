/** The declarative feature-set records and the three builders that produce them. */
module FeatureConfig {
  import opened Outcomes
  import opened Dates
  import opened Sales

  /** One named aggregation: sum `sourceCol` over the rows dated before `snapDate`
      and, when `window` is `Some(w)`, not before `snapDate - w months`. */
  datatype AggSpec = AggSpec(name: string, sourceCol: string, window: Option<nat>, snapDate: Date)

  /** A derived column: `name` holds `func` of each row. */
  datatype ColumnDef = ColumnDef(name: string, func: Row -> int)

  /** A feature set: the grouping key, the derived columns to add first, and the
      aggregations that share the key. */
  datatype FeatureSet = FeatureSet(groupColumn: seq<string>, addColumns: seq<ColumnDef>, groupedFeatures: seq<AggSpec>)

  const TargetName := "target"
  const SalesQuantity := "sales_quantity"
  const BaseFeatureName := "f_order_quantity_2mths"
  const MacroFeatureName := "f_order_quantity_3mths"
  const OrderItemQuantity := "sales_order_item_quantity"

  /** The forward-looking label: sales over the `targetDuration` months that follow `cutoff`. */
  function TargetSpec(targetDuration: nat, cutoff: Date, groupColumn: seq<string>): (fs: FeatureSet)
    ensures fs.groupColumn == groupColumn && |fs.addColumns| == 0 && |fs.groupedFeatures| == 1
    ensures fs.groupedFeatures[0].name == TargetName && fs.groupedFeatures[0].sourceCol == SalesQuantity
    ensures fs.groupedFeatures[0].window == Some(targetDuration)
    ensures fs.groupedFeatures[0].snapDate == AddMonths(cutoff, targetDuration)
  {
    FeatureSet(groupColumn, [], [AggSpec(TargetName, SalesQuantity, Some(targetDuration), AddMonths(cutoff, targetDuration))])
  }

  /** Order quantity over the two months before `cutoff`. */
  function BaseSpec(cutoff: Date, groupColumn: seq<string>): (fs: FeatureSet)
    ensures fs.groupColumn == groupColumn && |fs.addColumns| == 0 && |fs.groupedFeatures| == 1
    ensures fs.groupedFeatures[0].name == BaseFeatureName && fs.groupedFeatures[0].sourceCol == OrderItemQuantity
    ensures fs.groupedFeatures[0].window == Some(2) && fs.groupedFeatures[0].snapDate == cutoff
  {
    FeatureSet(groupColumn, [], [AggSpec(BaseFeatureName, OrderItemQuantity, Some(2), cutoff)])
  }

  /** Order quantity over the three months before `cutoff`, for a coarser key. */
  function MacroSpec(cutoff: Date, groupColumn: seq<string>): (fs: FeatureSet)
    ensures fs.groupColumn == groupColumn && |fs.addColumns| == 0 && |fs.groupedFeatures| == 1
    ensures fs.groupedFeatures[0].name == MacroFeatureName && fs.groupedFeatures[0].sourceCol == OrderItemQuantity
    ensures fs.groupedFeatures[0].window == Some(3) && fs.groupedFeatures[0].snapDate == cutoff
  {
    FeatureSet(groupColumn, [], [AggSpec(MacroFeatureName, OrderItemQuantity, Some(3), cutoff)])
  }
}
