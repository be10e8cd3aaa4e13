/** The platform hierarchy document and the tables shown beside it, as
    values: 5 domains, 24 modules and their components, services and
    tables. Every node carries its name, type, code, children and
    dependencies as written; a service's API list is recorded by each
    entry's method and path, and a table's schema by its name and its
    column names in order. Descriptive text (node descriptions, API
    summaries, parameters and responses, column types, constraints and
    notes) is not part of this encoding and is left empty.

    Nodes are written out in full, as
    `Node(name, type, code, children, description, dependencies, apiSpecs, dataSchema)`. */
module Document {
  import opened Types

  // Payloads of the services and tables.

  const PatientServiceApi: seq<ApiSpec> := [
    ApiSpec(POST, "/api/v1/patients", "", None, ""),
    ApiSpec(GET, "/api/v1/patients/:id", "", None, ""),
    ApiSpec(PUT, "/api/v1/patients/:id", "", None, ""),
    ApiSpec(POST, "/api/v1/patients/search", "", None, "")]

  const IdentifierServiceApi: seq<ApiSpec> := [
    ApiSpec(POST, "/api/v1/identifiers/generate", "", None, ""),
    ApiSpec(POST, "/api/v1/identifiers/validate", "", None, "")]

  const PatientsSchema: DataSchema := DataSchema("patients", None, [
    SchemaColumn("id", "", None, None),
    SchemaColumn("first_name", "", None, None),
    SchemaColumn("last_name", "", None, None),
    SchemaColumn("date_of_birth", "", None, None),
    SchemaColumn("gender", "", None, None),
    SchemaColumn("created_at", "", None, None),
    SchemaColumn("deleted_at", "", None, None)])

  const PatientIdentifiersSchema: DataSchema := DataSchema("patient_identifiers", None, [
    SchemaColumn("id", "", None, None),
    SchemaColumn("patient_id", "", None, None),
    SchemaColumn("identifier_type", "", None, None),
    SchemaColumn("identifier_value", "", None, None)])

  const PatientAddressesSchema: DataSchema := DataSchema("patient_addresses", None, [
    SchemaColumn("id", "", None, None),
    SchemaColumn("patient_id", "", None, None),
    SchemaColumn("address_line", "", None, None),
    SchemaColumn("city", "", None, None),
    SchemaColumn("country", "", None, None),
    SchemaColumn("is_primary", "", None, None)])

  const EncounterServiceApi: seq<ApiSpec> := [
    ApiSpec(POST, "/api/v1/encounters", "", None, ""),
    ApiSpec(PUT, "/api/v1/encounters/:id/end", "", None, ""),
    ApiSpec(GET, "/api/v1/encounters/active", "", None, "")]

  const LocationServiceApi: seq<ApiSpec> := [
    ApiSpec(GET, "/api/v1/locations", "", None, "")]

  const EncountersSchema: DataSchema := DataSchema("encounters", None, [
    SchemaColumn("id", "", None, None),
    SchemaColumn("patient_id", "", None, None),
    SchemaColumn("provider_id", "", None, None),
    SchemaColumn("location_id", "", None, None),
    SchemaColumn("type_id", "", None, None),
    SchemaColumn("start_time", "", None, None),
    SchemaColumn("end_time", "", None, None),
    SchemaColumn("status", "", None, None)])

  const ObservationServiceApi: seq<ApiSpec> := [
    ApiSpec(POST, "/api/v1/observations", "", None, ""),
    ApiSpec(GET, "/api/v1/encounters/:id/obs", "", None, "")]

  const ConceptServiceApi: seq<ApiSpec> := [
    ApiSpec(GET, "/api/v1/concepts/search", "", None, "")]

  const ObservationsSchema: DataSchema := DataSchema("observations", None, [
    SchemaColumn("id", "", None, None),
    SchemaColumn("encounter_id", "", None, None),
    SchemaColumn("concept_id", "", None, None),
    SchemaColumn("value_numeric", "", None, None),
    SchemaColumn("value_text", "", None, None),
    SchemaColumn("obs_datetime", "", None, None)])

  const ConceptsSchema: DataSchema := DataSchema("concepts", None, [
    SchemaColumn("id", "", None, None),
    SchemaColumn("code", "", None, None),
    SchemaColumn("name", "", None, None),
    SchemaColumn("datatype", "", None, None),
    SchemaColumn("class", "", None, None)])

  const MedicationServiceApi: seq<ApiSpec> := [
    ApiSpec(POST, "/api/v1/orders/medication", "", None, ""),
    ApiSpec(GET, "/api/v1/medications", "", None, "")]

  const MedicationsSchema: DataSchema := DataSchema("medications", None, [
    SchemaColumn("id", "", None, None),
    SchemaColumn("name", "", None, None),
    SchemaColumn("form", "", None, None),
    SchemaColumn("strength", "", None, None)])

  const MedicationOrdersSchema: DataSchema := DataSchema("medication_orders", None, [
    SchemaColumn("id", "", None, None),
    SchemaColumn("encounter_id", "", None, None),
    SchemaColumn("medication_id", "", None, None),
    SchemaColumn("dosage", "", None, None),
    SchemaColumn("frequency", "", None, None),
    SchemaColumn("duration_days", "", None, None)])

  const InventoryServiceApi: seq<ApiSpec> := [
    ApiSpec(GET, "/api/v1/inventory/:itemId", "", None, ""),
    ApiSpec(POST, "/api/v1/inventory/adjust", "", None, ""),
    ApiSpec(GET, "/api/v1/inventory/expiring", "", None, "")]

  const InventorySchema: DataSchema := DataSchema("inventory", None, [
    SchemaColumn("id", "", None, None),
    SchemaColumn("item_name", "", None, None),
    SchemaColumn("quantity", "", None, None),
    SchemaColumn("expiry_date", "", None, None),
    SchemaColumn("batch_no", "", None, None)])

  const PharmacyServiceApi: seq<ApiSpec> := [
    ApiSpec(POST, "/api/v1/pharmacy/dispense", "", None, "")]

  const PharmacyInventorySchema: DataSchema := DataSchema("pharmacy_inventory", None, [
    SchemaColumn("id", "", None, None),
    SchemaColumn("medication_id", "", None, None),
    SchemaColumn("quantity", "", None, None),
    SchemaColumn("batch_number", "", None, None),
    SchemaColumn("expiry_date", "", None, None)])

  const BillingServiceApi: seq<ApiSpec> := [
    ApiSpec(POST, "/api/v1/billing/create", "", None, ""),
    ApiSpec(GET, "/api/v1/billing/:id", "", None, ""),
    ApiSpec(POST, "/api/v1/billing/pay", "", None, "")]

  const BillsSchema: DataSchema := DataSchema("bills", None, [
    SchemaColumn("id", "", None, None),
    SchemaColumn("patient_id", "", None, None),
    SchemaColumn("encounter_id", "", None, None),
    SchemaColumn("amount_total", "", None, None),
    SchemaColumn("status", "", None, None)])

  const HRServiceApi: seq<ApiSpec> := [
    ApiSpec(GET, "/api/v1/hr/employees", "", None, ""),
    ApiSpec(POST, "/api/v1/hr/schedule", "", None, "")]

  const EmployeesSchema: DataSchema := DataSchema("employees", None, [
    SchemaColumn("id", "", None, None),
    SchemaColumn("user_id", "", None, None),
    SchemaColumn("department", "", None, None),
    SchemaColumn("role", "", None, None)])

  const DashboardServiceApi: seq<ApiSpec> := [
    ApiSpec(GET, "/api/v1/dashboard/metrics", "", None, "")]

  const DashboardsSchema: DataSchema := DataSchema("dashboards", None, [
    SchemaColumn("id", "", None, None),
    SchemaColumn("name", "", None, None),
    SchemaColumn("owner_id", "", None, None),
    SchemaColumn("config", "", None, None)])

  const ReportServiceApi: seq<ApiSpec> := [
    ApiSpec(POST, "/api/v1/reports/generate", "", None, "")]

  const ReportsSchema: DataSchema := DataSchema("reports", None, [
    SchemaColumn("id", "", None, None),
    SchemaColumn("name", "", None, None),
    SchemaColumn("template_id", "", None, None),
    SchemaColumn("generated_at", "", None, None),
    SchemaColumn("file_path", "", None, None)])

  const KpisSchema: DataSchema := DataSchema("kpis", None, [
    SchemaColumn("id", "", None, None),
    SchemaColumn("name", "", None, None),
    SchemaColumn("target", "", None, None),
    SchemaColumn("calculation_method", "", None, None)])

  const FactEncountersSchema: DataSchema := DataSchema("fact_encounters", None, [
    SchemaColumn("time_key", "", None, None),
    SchemaColumn("location_key", "", None, None),
    SchemaColumn("patient_count", "", None, None),
    SchemaColumn("avg_duration_minutes", "", None, None)])

  const OpenMRSServiceApi: seq<ApiSpec> := [
    ApiSpec(POST, "/api/v1/openmrs/sync", "", None, "")]

  const SyncLogsSchema: DataSchema := DataSchema("sync_logs", None, [
    SchemaColumn("id", "", None, None),
    SchemaColumn("system", "", None, None),
    SchemaColumn("status", "", None, None),
    SchemaColumn("message", "", None, None),
    SchemaColumn("timestamp", "", None, None)])

  const FHIRServiceApi: seq<ApiSpec> := [
    ApiSpec(GET, "/api/fhir/Patient/:id", "", None, ""),
    ApiSpec(POST, "/api/fhir/Bundle", "", None, "")]

  const AuthServiceApi: seq<ApiSpec> := [
    ApiSpec(POST, "/auth/login", "", None, ""),
    ApiSpec(POST, "/auth/refresh", "", None, ""),
    ApiSpec(POST, "/auth/logout", "", None, "")]

  const UsersSchema: DataSchema := DataSchema("users", None, [
    SchemaColumn("id", "", None, None),
    SchemaColumn("username", "", None, None),
    SchemaColumn("password_hash", "", None, None),
    SchemaColumn("email", "", None, None),
    SchemaColumn("status", "", None, None)])

  const RolesSchema: DataSchema := DataSchema("roles", None, [
    SchemaColumn("id", "", None, None),
    SchemaColumn("name", "", None, None),
    SchemaColumn("description", "", None, None)])

  const AuditLogsSchema: DataSchema := DataSchema("audit_logs", None, [
    SchemaColumn("id", "", None, None),
    SchemaColumn("user_id", "", None, None),
    SchemaColumn("action", "", None, None),
    SchemaColumn("resource", "", None, None),
    SchemaColumn("timestamp", "", None, None)])

  const NotificationsSchema: DataSchema := DataSchema("notifications", None, [
    SchemaColumn("id", "", None, None),
    SchemaColumn("user_id", "", None, None),
    SchemaColumn("type", "", None, None),
    SchemaColumn("message", "", None, None),
    SchemaColumn("read_at", "", None, None)])

  const FilesSchema: DataSchema := DataSchema("files", None, [
    SchemaColumn("id", "", None, None),
    SchemaColumn("entity_type", "", None, None),
    SchemaColumn("entity_id", "", None, None),
    SchemaColumn("file_path", "", None, None),
    SchemaColumn("mime_type", "", None, None)])

  // Modules, with their components, services and tables.

  const PatientManagement: Node := Node("Patient Management", Module, Some("CD.1.1"),
    [
      Node("Patient Registration", Component, Some("CD.1.1.1"), [], None, [], None, None),
      Node("Demographics", Component, Some("CD.1.1.2"), [], None, [], None, None),
      Node("Identifiers", Component, Some("CD.1.1.3"), [], None, [], None, None),
      Node("Address Management", Component, Some("CD.1.1.4"), [], None, [], None, None),
      Node("Contact Management", Component, Some("CD.1.1.5"), [], None, [], None, None),
      Node("Consent Management", Component, Some("CD.1.1.6"), [], None, [], None, None),
      Node("PatientService", Service, Some("CD.1.1.S1"), [], None, [], Some(PatientServiceApi), None),
      Node("IdentifierService", Service, Some("CD.1.1.S2"), [], None, [], Some(IdentifierServiceApi), None),
      Node("patients", Data, Some("CD.1.1.D1"), [], None, [], None, Some(PatientsSchema)),
      Node("patient_identifiers", Data, Some("CD.1.1.D2"), [], None, [], None, Some(PatientIdentifiersSchema)),
      Node("patient_addresses", Data, Some("CD.1.1.D3"), [], None, [], None, Some(PatientAddressesSchema))],
    None, [], None, None)

  const EncounterManagement: Node := Node("Encounter Management", Module, Some("CD.1.2"),
    [
      Node("Encounter Creation", Component, Some("CD.1.2.1"), [], None, [], None, None),
      Node("Encounter Types", Component, Some("CD.1.2.2"), [], None, [], None, None),
      Node("Locations", Component, Some("CD.1.2.3"), [], None, [], None, None),
      Node("Provider Assignment", Component, Some("CD.1.2.4"), [], None, [], None, None),
      Node("Workflows", Component, Some("CD.1.2.5"), [], None, [], None, None),
      Node("EncounterService", Service, Some("CD.1.2.S1"), [], None, [], Some(EncounterServiceApi), None),
      Node("LocationService", Service, Some("CD.1.2.S2"), [], None, [], Some(LocationServiceApi), None),
      Node("encounters", Data, Some("CD.1.2.D1"), [], None, [], None, Some(EncountersSchema))],
    None, ["CD.1.1"], None, None)

  const ClinicalData: Node := Node("Clinical Data", Module, Some("CD.1.3"),
    [
      Node("Observations", Component, Some("CD.1.3.1"), [], None, [], None, None),
      Node("Vital Signs", Component, Some("CD.1.3.2"), [], None, [], None, None),
      Node("Lab Results", Component, Some("CD.1.3.3"), [], None, [], None, None),
      Node("Diagnoses", Component, Some("CD.1.3.4"), [], None, [], None, None),
      Node("Procedures", Component, Some("CD.1.3.5"), [], None, [], None, None),
      Node("ObservationService", Service, Some("CD.1.3.S1"), [], None, [], Some(ObservationServiceApi), None),
      Node("ConceptService", Service, Some("CD.1.3.S2"), [], None, [], Some(ConceptServiceApi), None),
      Node("observations", Data, Some("CD.1.3.D1"), [], None, [], None, Some(ObservationsSchema)),
      Node("concepts", Data, Some("CD.1.3.D2"), [], None, [], None, Some(ConceptsSchema))],
    None, ["CD.1.2"], None, None)

  const MedicationManagement: Node := Node("Medication Management", Module, Some("CD.1.4"),
    [
      Node("Catalog", Component, Some("CD.1.4.1"), [], None, [], None, None),
      Node("Prescribing", Component, Some("CD.1.4.2"), [], None, [], None, None),
      Node("Dispensing", Component, Some("CD.1.4.3"), [], None, [], None, None),
      Node("MedicationService", Service, Some("CD.1.4.S1"), [], None, [], Some(MedicationServiceApi), None),
      Node("medications", Data, Some("CD.1.4.D1"), [], None, [], None, Some(MedicationsSchema)),
      Node("medication_orders", Data, Some("CD.1.4.D2"), [], None, [], None, Some(MedicationOrdersSchema))],
    None, ["CD.1.1", "CD.1.2"], None, None)

  const InventoryManagement: Node := Node("Inventory Management", Module, Some("OD.2.1"),
    [
      Node("Stock Management", Component, Some("OD.2.1.1"), [], None, [], None, None),
      Node("Stock Adjustments", Component, Some("OD.2.1.2"), [], None, [], None, None),
      Node("Expiry Tracking", Component, Some("OD.2.1.3"), [], None, [], None, None),
      Node("Procurement", Component, Some("OD.2.1.4"), [], None, [], None, None),
      Node("InventoryService", Service, Some("OD.2.1.S1"), [], None, [], Some(InventoryServiceApi), None),
      Node("inventory", Data, Some("OD.2.1.D1"), [], None, [], None, Some(InventorySchema))],
    None, [], None, None)

  const PharmacyManagement: Node := Node("Pharmacy Management", Module, Some("OD.2.2"),
    [
      Node("Dispensing", Component, Some("OD.2.2.1"), [], None, [], None, None),
      Node("PharmacyService", Service, Some("OD.2.2.S1"), [], None, [], Some(PharmacyServiceApi), None),
      Node("pharmacy_inventory", Data, Some("OD.2.2.D1"), [], None, [], None, Some(PharmacyInventorySchema))],
    None, ["CD.1.4", "OD.2.1"], None, None)

  const BillingFinance: Node := Node("Billing & Finance", Module, Some("OD.2.3"),
    [
      Node("Bill Creation", Component, Some("OD.2.3.1"), [], None, [], None, None),
      Node("Invoicing", Component, Some("OD.2.3.2"), [], None, [], None, None),
      Node("Payment Recording", Component, Some("OD.2.3.3"), [], None, [], None, None),
      Node("BillingService", Service, Some("OD.2.3.S1"), [], None, [], Some(BillingServiceApi), None),
      Node("bills", Data, Some("OD.2.3.D1"), [], None, [], None, Some(BillsSchema))],
    None, ["CD.1.2"], None, None)

  const HRManagement: Node := Node("HR Management", Module, Some("OD.2.4"),
    [
      Node("Employee Management", Component, Some("OD.2.4.1"), [], None, [], None, None),
      Node("Scheduling", Component, Some("OD.2.4.2"), [], None, [], None, None),
      Node("HRService", Service, Some("OD.2.4.S1"), [], None, [], Some(HRServiceApi), None),
      Node("employees", Data, Some("OD.2.4.D1"), [], None, [], None, Some(EmployeesSchema))],
    None, [], None, None)

  const Dashboard: Node := Node("Dashboard", Module, Some("AD.3.1"),
    [
      Node("Widget Engine", Component, Some("AD.3.1.1"), [], None, [], None, None),
      Node("Patient Dashboard", Component, Some("AD.3.1.2"), [], None, [], None, None),
      Node("DashboardService", Service, Some("AD.3.1.S1"), [], None, [], Some(DashboardServiceApi), None),
      Node("dashboards", Data, Some("AD.3.1.D1"), [], None, [], None, Some(DashboardsSchema))],
    None, ["CD.1.1", "CD.1.2", "OD.2.3"], None, None)

  const Reporting: Node := Node("Reporting", Module, Some("AD.3.2"),
    [
      Node("Report Builder", Component, Some("AD.3.2.1"), [], None, [], None, None),
      Node("Scheduled Reports", Component, Some("AD.3.2.2"), [], None, [], None, None),
      Node("ReportService", Service, Some("AD.3.2.S1"), [], None, [], Some(ReportServiceApi), None),
      Node("reports", Data, Some("AD.3.2.D1"), [], None, [], None, Some(ReportsSchema))],
    None, [], None, None)

  const KPIModule: Node := Node("KPI Module", Module, Some("AD.3.3"),
    [
      Node("KPI Definition", Component, Some("AD.3.3.1"), [], None, [], None, None),
      Node("KPI Calculation", Component, Some("AD.3.3.2"), [], None, [], None, None),
      Node("KPIService", Service, Some("AD.3.3.S1"), [], None, [], None, None),
      Node("kpis", Data, Some("AD.3.3.D1"), [], None, [], None, Some(KpisSchema))],
    None, [], None, None)

  const DataWarehouse: Node := Node("Data Warehouse", Module, Some("AD.3.4"),
    [
      Node("Fact Tables", Component, Some("AD.3.4.1"), [], None, [], None, None),
      Node("Dimension Tables", Component, Some("AD.3.4.2"), [], None, [], None, None),
      Node("fact_encounters", Data, Some("AD.3.4.D1"), [], None, [], None, Some(FactEncountersSchema))],
    None, [], None, None)

  const OpenMRSIntegration: Node := Node("OpenMRS Integration", Module, Some("ID.4.1"),
    [
      Node("Patient Sync", Component, Some("ID.4.1.1"), [], None, [], None, None),
      Node("Encounter Sync", Component, Some("ID.4.1.2"), [], None, [], None, None),
      Node("OpenMRSService", Service, Some("ID.4.1.S1"), [], None, [], Some(OpenMRSServiceApi), None),
      Node("sync_logs", Data, Some("ID.4.1.D1"), [], None, [], None, Some(SyncLogsSchema))],
    None, ["CD.1.1", "CD.1.2"], None, None)

  const OdooIntegration: Node := Node("Odoo Integration", Module, Some("ID.4.2"),
    [
      Node("Accounting Sync", Component, Some("ID.4.2.1"), [], None, [], None, None),
      Node("OdooService", Service, Some("ID.4.2.S1"), [], None, [], None, None)],
    None, ["OD.2.1", "OD.2.3"], None, None)

  const DHIS2Integration: Node := Node("DHIS2 Integration", Module, Some("ID.4.3"),
    [
      Node("Data Mapping", Component, Some("ID.4.3.1"), [], None, [], None, None),
      Node("DHIS2Service", Service, Some("ID.4.3.S1"), [], None, [], None, None)],
    None, [], None, None)

  const FHIRCompliance: Node := Node("FHIR Compliance", Module, Some("ID.4.4"),
    [
      Node("FHIR Resources", Component, Some("ID.4.4.1"), [], None, [], None, None),
      Node("FHIRService", Service, Some("ID.4.4.S1"), [], None, [], Some(FHIRServiceApi), None)],
    None, [], None, None)

  const HL7Support: Node := Node("HL7 Support", Module, Some("ID.4.5"),
    [
      Node("HL7 Parsing", Component, Some("ID.4.5.1"), [], None, [], None, None),
      Node("HL7Service", Service, Some("ID.4.5.S1"), [], None, [], None, None)],
    None, [], None, None)

  const Authentication: Node := Node("Authentication", Module, Some("IF.5.1"),
    [
      Node("Login Component", Component, Some("IF.5.1.1"), [], None, [], None, None),
      Node("AuthService", Service, Some("IF.5.1.S1"), [], None, [], Some(AuthServiceApi), None),
      Node("users", Data, Some("IF.5.1.D1"), [], None, [], None, Some(UsersSchema))],
    None, [], None, None)

  const Authorization: Node := Node("Authorization", Module, Some("IF.5.2"),
    [
      Node("Role Management", Component, Some("IF.5.2.1"), [], None, [], None, None),
      Node("roles", Data, Some("IF.5.2.D1"), [], None, [], None, Some(RolesSchema))],
    None, ["IF.5.1"], None, None)

  const Audit: Node := Node("Audit", Module, Some("IF.5.3"),
    [
      Node("Action Logging", Component, Some("IF.5.3.1"), [], None, [], None, None),
      Node("AuditService", Service, Some("IF.5.3.S1"), [], None, [], None, None),
      Node("audit_logs", Data, Some("IF.5.3.D1"), [], None, [], None, Some(AuditLogsSchema))],
    None, [], None, None)

  const Notification: Node := Node("Notification", Module, Some("IF.5.4"),
    [
      Node("Notification Engine", Component, Some("IF.5.4.1"), [], None, [], None, None),
      Node("NotificationService", Service, Some("IF.5.4.S1"), [], None, [], None, None),
      Node("notifications", Data, Some("IF.5.4.D1"), [], None, [], None, Some(NotificationsSchema))],
    None, [], None, None)

  const FileStorage: Node := Node("File Storage", Module, Some("IF.5.5"),
    [
      Node("File Upload", Component, Some("IF.5.5.1"), [], None, [], None, None),
      Node("files", Data, Some("IF.5.5.D1"), [], None, [], None, Some(FilesSchema))],
    None, [], None, None)

  const Caching: Node := Node("Caching", Module, Some("IF.5.6"),
    [],
    None, [], None, None)

  const Search: Node := Node("Search", Module, Some("IF.5.7"),
    [],
    None, [], None, None)

  // Domains and the platform.

  const ClinicalDomain: Node := Node("Clinical Domain (CD)", Domain, Some("CD"),
    [PatientManagement, EncounterManagement, ClinicalData, MedicationManagement],
    None, [], None, None)

  const OperationalDomain: Node := Node("Operational Domain (OD)", Domain, Some("OD"),
    [InventoryManagement, PharmacyManagement, BillingFinance, HRManagement],
    None, [], None, None)

  const AnalyticsDomain: Node := Node("Analytics Domain (AD)", Domain, Some("AD"),
    [Dashboard, Reporting, KPIModule, DataWarehouse],
    None, [], None, None)

  const IntegrationDomain: Node := Node("Integration Domain (ID)", Domain, Some("ID"),
    [OpenMRSIntegration, OdooIntegration, DHIS2Integration, FHIRCompliance, HL7Support],
    None, [], None, None)

  const InfrastructureDomain: Node := Node("Infrastructure Domain (IF)", Domain, Some("IF"),
    [Authentication, Authorization, Audit, Notification, FileStorage, Caching, Search],
    None, [], None, None)

  const PlatformHierarchy: Node := Node("NGO Operations Platform", Platform, None, [ClinicalDomain, OperationalDomain, AnalyticsDomain, IntegrationDomain, InfrastructureDomain], None, [], None, None)

  // The companion tables.

  const ProjectPhases: seq<ProjectPhase> := [
    ProjectPhase(1, "Foundation", 1, 4, 150000, "Planning",
      "Environment setup, DB schema, Auth, Infrastructure.",
      ["Docker/K8s Setup", "DB Schema (50+ tables)", "Auth System", "API Gateway"]),
    ProjectPhase(2, "Core Modules", 5, 12, 250000, "Not Started",
      "Patient, Encounter, Clinical Data, Medication.",
      ["PatientService", "EncounterService", "ObservationService", "MedicationService"]),
    ProjectPhase(3, "Operational", 13, 20, 200000, "Not Started",
      "Inventory, Pharmacy, Billing, HR.",
      ["InventoryService", "PharmacyService", "BillingService", "HRService"]),
    ProjectPhase(4, "Analytics & Integration", 21, 28, 250000, "Not Started",
      "Dashboard, Reports, OpenMRS/DHIS2 Sync.",
      ["DashboardService", "Data Warehouse", "OpenMRS Sync", "FHIR API"]),
    ProjectPhase(5, "Deployment", 29, 32, 150000, "Not Started",
      "QA, UAT, Training, Go-Live.",
      ["System Test Report", "User Training", "Production Deployment", "Go-Live"])]

  const KeyMetrics: seq<Metric> := [
    Metric("Total Budget", Text("$1,000,000"), "DollarSign", None, None),
    Metric("Duration", Text("32 Weeks"), "Clock", None, None),
    Metric("Modules", Text("24"), "Grid", None, None),
    Metric("Services", Text("40+"), "Server", None, None),
    Metric("API Endpoints", Text("100+"), "Network", None, None),
    Metric("DB Tables", Text("50+"), "Database", None, None)]

  const Domains: seq<DomainInfo> := [
    DomainInfo("CD", "Clinical", "Patient care & clinical ops", 4, "bg-blue-500"),
    DomainInfo("OD", "Operational", "Facility operations & admin", 4, "bg-emerald-500"),
    DomainInfo("AD", "Analytics", "Reporting & business intel", 4, "bg-purple-500"),
    DomainInfo("ID", "Integration", "External connectivity", 5, "bg-orange-500"),
    DomainInfo("IF", "Infrastructure", "Core system services", 7, "bg-slate-500")]
}
